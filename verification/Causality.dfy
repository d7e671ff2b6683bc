/** What the clocks in the handlers' metadata mean: the edits that a peer's version of a file contains,
    recorded step by step as the network runs. */
module Causality {
  import opened ByteStrings
  import opened Disk
  import opened Merkle
  import opened Clock
  import opened ConflictName
  import opened Replica
  import opened Network
  import G = Gossip

  /** For one path: the edits that each peer's version contains, how often each peer has edited, and the
      edits that each announced version contains. */
  datatype Ledger = Ledger(histories: map<PeerId, set<G.Event>>, edits: map<PeerId, nat>,
                           announced: map<Change, set<G.Event>>)

  function Blank(peers: set<PeerId>): Ledger {
    Ledger(map p | p in peers :: {}, map p | p in peers :: 0, map[])
  }

  predicate Covers(b: Ledger, cfgs: map<PeerId, Config>) {
    b.histories.Keys == b.edits.Keys == cfgs.Keys
  }

  /** The ledger after an edit of the path that announces `c`. */
  function EditLedger(b: Ledger, p: PeerId, c: Change): Ledger
    requires p in b.histories && p in b.edits
  {
    var n := b.edits[p] + 1;
    var h := b.histories[p] + {G.Event(p, n)};
    Ledger(b.histories[p := h], b.edits[p := n], b.announced[c := h])
  }

  /** An edit of the path is a new event in its author's history; a fetch completed there adds the events
      of the version fetched; nothing else changes what a version contains. */
  function Recorded(hash: Hasher, cfgs: map<PeerId, Config>, net: Net, step: NetStep, path: Path,
      b: Ledger): (r: Ledger)
    requires Can(cfgs, net, step) && Covers(b, cfgs)
    ensures Covers(r, cfgs)
  {
    var cfg, s := cfgs[step.p], net.peers[step.p];
    match step
    case Edited(p, at, data, now) =>
      if at == path then EditLedger(b, p, EditChange(hash, cfg, s, at, data, now)) else b
    case Finished(p, c, target, remote) =>
      if target == path && Fetches(cfg, s, remote, c, target) && c in b.announced
      then b.(histories := b.histories[p := b.histories[p] + b.announced[c]])
      else b
    case _ => b
  }

  ghost function RecordedRun(hash: Hasher, cfgs: map<PeerId, Config>, net: Net, steps: seq<NetStep>, path: Path,
      rule: Rule, b: Ledger): (r: Ledger)
    requires IsNetRun(hash, cfgs, net, steps, path, rule) && Covers(b, cfgs)
    ensures Covers(r, cfgs)
    decreases steps
  {
    if steps == [] then b
    else
      RecordedRun(hash, cfgs, Next(hash, cfgs, net, steps[0]), steps[1..], path, rule,
                  Recorded(hash, cfgs, net, steps[0], path, b))
  }

  ghost function ClockAt(s: State, path: Path): Counters {
    if path in s.meta then s.meta[path].clock else map[]
  }

  // ---- Clocks count what is recorded ----

  /** No counter of the clock exceeds the number of that peer's edits. */
  ghost predicate Bounded(c: Counters, edits: map<PeerId, nat>) {
    forall q :: q in edits ==> Get(c, q) <= edits[q]
  }

  ghost predicate PeerRecorded(b: Ledger, s: State, path: Path, p: PeerId)
    requires p in b.histories && p in b.edits
  {
    && G.Represents(b.histories[p], ClockAt(s, path)) && Get(ClockAt(s, path), p) == b.edits[p]
    && Bounded(ClockAt(s, path), b.edits)
  }

  ghost predicate ChangeRecorded(b: Ledger, c: Change) {
    c in b.announced && G.Represents(b.announced[c], c.clock) && Bounded(c.clock, b.edits)
  }

  ghost predicate PendingSent(f: Fetch, sent: set<Change>, path: Path) {
    f.1 in sent && (f.2 == path ==> f.1.path == path)
  }

  ghost predicate PeersRecorded(b: Ledger, peers: map<PeerId, State>, path: Path) {
    && b.histories.Keys == b.edits.Keys == peers.Keys
    && forall p {:trigger PeerRecorded(b, peers[p], path, p)} :: p in peers ==> PeerRecorded(b, peers[p], path, p)
  }

  ghost predicate ChangesRecorded(b: Ledger, sent: set<Change>, path: Path) {
    forall c {:trigger ChangeRecorded(b, c)} :: c in sent && c.path == path ==> ChangeRecorded(b, c)
  }

  ghost predicate AllPendingSent(pending: set<Fetch>, sent: set<Change>, path: Path) {
    forall f {:trigger PendingSent(f, sent, path)} :: f in pending ==> PendingSent(f, sent, path)
  }

  ghost predicate Represented(net: Net, path: Path, b: Ledger) {
    && PeersRecorded(b, net.peers, path) && ChangesRecorded(b, net.sent, path)
    && AllPendingSent(net.pending, net.sent, path)
  }

  lemma BlankRepresents(cfgs: map<PeerId, Config>, net: Net, path: Path)
    requires FirstNet(cfgs, net, path)
    ensures Represented(net, path, Blank(cfgs.Keys))
  {
    forall p | p in cfgs
      ensures PeerRecorded(Blank(cfgs.Keys), net.peers[p], path, p)
    {
    }
  }

  /** One peer's version changes. */
  lemma PeersStep(b: Ledger, peers: map<PeerId, State>, path: Path, p: PeerId, s: State, h: set<G.Event>)
    requires PeersRecorded(b, peers, path) && p in peers
    requires PeerRecorded(b.(histories := b.histories[p := h]), s, path, p)
    ensures PeersRecorded(b.(histories := b.histories[p := h]), peers[p := s], path)
  {
    var b', peers' := b.(histories := b.histories[p := h]), peers[p := s];
    forall q | q in peers'
      ensures PeerRecorded(b', peers'[q], path, q)
    {
      if q != p {
        assert PeerRecorded(b, peers[q], path, q);
      }
    }
  }

  /** The announced versions stay as recorded, and announcements of other paths do not matter. */
  lemma ChangesStep(b: Ledger, histories: map<PeerId, set<G.Event>>, sent: set<Change>, more: set<Change>, path: Path)
    requires ChangesRecorded(b, sent, path) && forall c :: c in more ==> c.path != path
    ensures ChangesRecorded(b.(histories := histories), sent + more, path)
  {
    forall c | c in sent + more && c.path == path
      ensures ChangeRecorded(b.(histories := histories), c)
    {
      assert ChangeRecorded(b, c);
    }
  }

  lemma PendingStep(pending: set<Fetch>, added: set<Fetch>, sent: set<Change>, more: set<Change>, path: Path)
    requires AllPendingSent(pending, sent, path)
    requires forall f :: f in added ==> f.1 in sent && (f.2 == path ==> f.1.path == path)
    ensures AllPendingSent(pending + added, sent + more, path)
  {
    forall f | f in pending + added
      ensures PendingSent(f, sent + more, path)
    {
      assert f in pending ==> PendingSent(f, sent, path);
    }
  }

  /** A step of one peer that leaves its metadata at the path alone. */
  lemma AsideStep(net: Net, next: Net, path: Path, b: Ledger, p: PeerId, more: set<Change>, added: set<Fetch>)
    requires Represented(net, path, b) && p in net.peers && p in next.peers
    requires next.peers == net.peers[p := next.peers[p]]
    requires next.sent == net.sent + more && forall c :: c in more ==> c.path != path
    requires next.pending == net.pending + added
    requires forall f :: f in added ==> f.1 in net.sent && (f.2 == path ==> f.1.path == path)
    requires ClockAt(next.peers[p], path) == ClockAt(net.peers[p], path)
    ensures Represented(next, path, b)
  {
    assert b.(histories := b.histories[p := b.histories[p]]) == b by {
      assert b.histories[p := b.histories[p]] == b.histories;
    }
    assert PeerRecorded(b, net.peers[p], path, p);
    PeersStep(b, net.peers, path, p, next.peers[p], b.histories[p]);
    ChangesStep(b, b.histories, net.sent, more, path);
    PendingStep(net.pending, added, net.sent, more, path);
  }

  // ---- The steps of the network ----

  lemma Raised(c: Counters, edits: map<PeerId, nat>, p: PeerId, n: nat)
    requires Bounded(c, edits) && p in edits && edits[p] <= n
    ensures Bounded(c, edits[p := n])
  {
  }

  lemma RaisedTick(c: Counters, edits: map<PeerId, nat>, p: PeerId)
    requires Bounded(c, edits) && p in edits && Get(c, p) == edits[p] < U64_MAX
    ensures Bounded(Ticked(c, p), edits[p := edits[p] + 1])
  {
  }

  lemma EditRecorded(b: Ledger, s: State, t: State, path: Path, p: PeerId, c: Change)
    requires p in b.histories && p in b.edits && PeerRecorded(b, s, path, p) && Get(ClockAt(s, path), p) < U64_MAX
    requires ClockAt(t, path) == Ticked(ClockAt(s, path), p) == c.clock
    ensures PeerRecorded(EditLedger(b, p, c), t, path, p) && ChangeRecorded(EditLedger(b, p, c), c)
  {
    G.TickRepresents(b.histories[p], ClockAt(s, path), p);
    RaisedTick(ClockAt(s, path), b.edits, p);
  }

  lemma EditPeers(b: Ledger, peers: map<PeerId, State>, t: State, path: Path, p: PeerId, c: Change)
    requires PeersRecorded(b, peers, path) && p in peers && PeerRecorded(EditLedger(b, p, c), t, path, p)
    ensures PeersRecorded(EditLedger(b, p, c), peers[p := t], path)
  {
    var b', peers' := EditLedger(b, p, c), peers[p := t];
    forall q | q in peers'
      ensures PeerRecorded(b', peers'[q], path, q)
    {
      if q != p {
        assert PeerRecorded(b, peers[q], path, q);
        Raised(ClockAt(peers[q], path), b.edits, p, b.edits[p] + 1);
      }
    }
  }

  lemma EditChanges(b: Ledger, sent: set<Change>, path: Path, p: PeerId, c: Change)
    requires ChangesRecorded(b, sent, path) && p in b.histories && p in b.edits
      && ChangeRecorded(EditLedger(b, p, c), c)
    ensures ChangesRecorded(EditLedger(b, p, c), sent + {c}, path)
  {
    forall d | d in sent + {c} && d.path == path
      ensures ChangeRecorded(EditLedger(b, p, c), d)
    {
      if d != c {
        assert ChangeRecorded(b, d);
        Raised(d.clock, b.edits, p, b.edits[p] + 1);
      }
    }
  }

  lemma EditClocks(hash: Hasher, cfgs: map<PeerId, Config>, net: Net, step: NetStep)
    requires step.Edited? && Can(cfgs, net, step)
    ensures var s, t := net.peers[step.p], Next(hash, cfgs, net, step).peers[step.p];
      var c := EditChange(hash, cfgs[step.p], s, step.path, step.data, step.now);
      && Get(ClockAt(s, step.path), step.p) < U64_MAX && c.path == step.path
      && ClockAt(t, step.path) == Ticked(ClockAt(s, step.path), step.p) == c.clock
      && forall path :: path != step.path ==> ClockAt(t, path) == ClockAt(s, path)
  {
    WriteData(net.peers[step.p].disk, step.path, step.data, step.path);
  }

  lemma EditRepresented(hash: Hasher, cfgs: map<PeerId, Config>, net: Net, step: NetStep, path: Path, b: Ledger)
    requires step.Edited? && Can(cfgs, net, step) && Covers(b, cfgs) && Represented(net, path, b)
    ensures Represented(Next(hash, cfgs, net, step), path, Recorded(hash, cfgs, net, step, path, b))
  {
    var p, next := step.p, Next(hash, cfgs, net, step);
    var c := EditChange(hash, cfgs[p], net.peers[p], step.path, step.data, step.now);
    EditClocks(hash, cfgs, net, step);
    assert net.pending + {} == net.pending;
    if step.path == path {
      assert PeerRecorded(b, net.peers[p], path, p);
      EditRecorded(b, net.peers[p], next.peers[p], path, p, c);
      EditPeers(b, net.peers, next.peers[p], path, p, c);
      EditChanges(b, net.sent, path, p, c);
      PendingStep(net.pending, {}, net.sent, {c}, path);
    } else {
      AsideStep(net, next, path, b, p, {c}, {});
    }
  }

  /** Merging clocks joins histories. */
  lemma FetchRecorded(b: Ledger, s: State, t: State, path: Path, p: PeerId, c: Change)
    requires p in b.histories && p in b.edits && PeerRecorded(b, s, path, p) && ChangeRecorded(b, c)
    requires ClockAt(t, path) == Merged(ClockAt(s, path), c.clock)
    ensures PeerRecorded(b.(histories := b.histories[p := b.histories[p] + b.announced[c]]), t, path, p)
  {
    G.MergeRepresents(b.histories[p], ClockAt(s, path), b.announced[c], c.clock);
    forall q: PeerId
      ensures Get(ClockAt(t, path), q) == Max(Get(ClockAt(s, path), q), Get(c.clock, q))
    {
      MergedGet(ClockAt(s, path), c.clock, q);
    }
  }

  lemma FetchClocks(hash: Hasher, cfg: Config, s: State, remote: Remote, c: Change, target: Path, path: Path)
    requires cfg.lim.chunkSize > 0 && remote.lim.chunkSize > 0
    ensures var t := Fetched(hash, cfg, s, remote, target, IndicesOf(c.chunks), OriginOf(c));
      ClockAt(t, path) ==
        if target == path && Fetches(cfg, s, remote, c, target) then Merged(ClockAt(s, path), c.clock)
        else ClockAt(s, path)
  {
  }

  lemma FinishRepresented(hash: Hasher, cfgs: map<PeerId, Config>, net: Net, step: NetStep, path: Path, b: Ledger)
    requires step.Finished? && Can(cfgs, net, step) && Covers(b, cfgs) && Represented(net, path, b)
    ensures Represented(Next(hash, cfgs, net, step), path, Recorded(hash, cfgs, net, step, path, b))
  {
    var p, c, next := step.p, step.c, Next(hash, cfgs, net, step);
    assert PendingSent((p, c, step.target), net.sent, path);
    assert net.pending + {} == net.pending && net.sent + {} == net.sent;
    FetchClocks(hash, cfgs[p], net.peers[p], step.remote, c, step.target, path);
    if step.target == path && Fetches(cfgs[p], net.peers[p], step.remote, c, path) {
      assert ChangeRecorded(b, c) && PeerRecorded(b, net.peers[p], path, p);
      var h := b.histories[p] + b.announced[c];
      FetchRecorded(b, net.peers[p], next.peers[p], path, p, c);
      PeersStep(b, net.peers, path, p, next.peers[p], h);
      ChangesStep(b, b.histories[p := h], net.sent, {}, path);
    } else {
      AsideStep(net, next, path, b, p, {}, {});
    }
  }

  lemma NothingRecorded(hash: Hasher, cfgs: map<PeerId, Config>, net: Net, step: NetStep, path: Path, b: Ledger)
    requires Can(cfgs, net, step) && Covers(b, cfgs) && !step.Edited? && !step.Finished?
    ensures Recorded(hash, cfgs, net, step, path, b) == b
  {
  }

  lemma WantedFits(cfg: Config, s: State, p: PeerId, c: Change, path: Path)
    requires !IsConflictBackup(path)
    ensures forall f :: f in Wanted(cfg, s, p, c) ==> f.1 == c && (f.2 == path ==> c.path == path)
  {
    TargetElsewhere(cfg, s, c, path);
  }

  lemma DecideRepresented(hash: Hasher, cfgs: map<PeerId, Config>, net: Net, p: PeerId, c: Change, path: Path,
      b: Ledger)
    requires Can(cfgs, net, Decided(p, c)) && Represented(net, path, b) && !IsConflictBackup(path)
    ensures Represented(Next(hash, cfgs, net, Decided(p, c)), path, b)
  {
    var next := Next(hash, cfgs, net, Decided(p, c));
    DecidedNet(hash, cfgs, net, p, c);
    WantedFits(cfgs[p], net.peers[p], p, c, path);
    assert next.sent == net.sent + {};
    AsideStep(net, next, path, b, p, {}, Wanted(cfgs[p], net.peers[p], p, c));
  }

  lemma OtherRepresented(hash: Hasher, cfgs: map<PeerId, Config>, net: Net, step: NetStep, path: Path, rule: Rule,
      b: Ledger)
    requires IsAside(step) || step.Disturbed?
    requires Can(cfgs, net, step) && InTime(cfgs, net, step, path, rule) && Represented(net, path, b)
    ensures Represented(Next(hash, cfgs, net, step), path, b)
  {
    assert net.pending + {} == net.pending && net.sent + {} == net.sent;
    if IsAside(step) {
      AsideUntouched(hash, cfgs, net, step, path, rule);
    }
    AsideStep(net, Next(hash, cfgs, net, step), path, b, step.p, {}, {});
  }

  lemma StepRepresented(hash: Hasher, cfgs: map<PeerId, Config>, net: Net, step: NetStep, path: Path, rule: Rule,
      b: Ledger)
    requires Can(cfgs, net, step) && InTime(cfgs, net, step, path, rule) && Covers(b, cfgs) && Represented(net, path, b)
    requires !IsConflictBackup(path)
    ensures Represented(Next(hash, cfgs, net, step), path, Recorded(hash, cfgs, net, step, path, b))
  {
    if step.Edited? {
      EditRepresented(hash, cfgs, net, step, path, b);
    } else if step.Finished? {
      FinishRepresented(hash, cfgs, net, step, path, b);
    } else {
      NothingRecorded(hash, cfgs, net, step, path, b);
      if step.Decided? {
        DecideRepresented(hash, cfgs, net, step.p, step.c, path, b);
      } else {
        OtherRepresented(hash, cfgs, net, step, path, rule, b);
      }
    }
  }

  lemma {:induction false} RunRepresented(hash: Hasher, cfgs: map<PeerId, Config>, net: Net, steps: seq<NetStep>,
      path: Path, rule: Rule, b: Ledger)
    requires IsNetRun(hash, cfgs, net, steps, path, rule) && Covers(b, cfgs) && Represented(net, path, b)
    requires !IsConflictBackup(path)
    ensures Represented(NetRun(hash, cfgs, net, steps, path, rule), path,
                        RecordedRun(hash, cfgs, net, steps, path, rule, b))
    decreases steps
  {
    if steps != [] {
      StepRepresented(hash, cfgs, net, steps[0], path, rule, b);
      RunRepresented(hash, cfgs, Next(hash, cfgs, net, steps[0]), steps[1..], path, rule,
                     Recorded(hash, cfgs, net, steps[0], path, b));
    }
  }

  // ---- Comparing clocks ----

  lemma ComparedHistories(a: Counters, g: set<G.Event>, b: Counters, h: set<G.Event>)
    requires G.Represents(g, a) && G.Represents(h, b)
    ensures Compared(a, b) == G.HistoryOrder(g, h)
  {
    G.LeqIffIncluded(a, g, b, h);
    G.LeqIffIncluded(b, h, a, g);
  }

  /** With no condition on stamps or on when fetches complete, comparing the clocks two peers hold for a
      path is comparing the edits that their versions contain, as recorded step by step; and comparing a
      peer's clock with an announced one is comparing with the edits of the version announced. */
  lemma HandlersClocksAreCausality(hash: Hasher, cfgs: map<PeerId, Config>, net: Net, steps: seq<NetStep>, path: Path,
      p: PeerId, q: PeerId)
    requires FirstNet(cfgs, net, path) && IsNetRun(hash, cfgs, net, steps, path, AnyTime) && !IsConflictBackup(path)
    requires p in cfgs && q in cfgs
    ensures var t := NetRun(hash, cfgs, net, steps, path, AnyTime);
      var b := RecordedRun(hash, cfgs, net, steps, path, AnyTime, Blank(cfgs.Keys));
      && p in t.peers && q in t.peers
      && Compared(ClockAt(t.peers[p], path), ClockAt(t.peers[q], path))
        == G.HistoryOrder(b.histories[p], b.histories[q])
      && forall c :: c in t.sent && c.path == path ==>
        c in b.announced && Compared(ClockAt(t.peers[p], path), c.clock)
          == G.HistoryOrder(b.histories[p], b.announced[c])
  {
    var t := NetRun(hash, cfgs, net, steps, path, AnyTime);
    var b := RecordedRun(hash, cfgs, net, steps, path, AnyTime, Blank(cfgs.Keys));
    BlankRepresents(cfgs, net, path);
    RunRepresented(hash, cfgs, net, steps, path, AnyTime, Blank(cfgs.Keys));
    RepresentedCompare(t, path, b, p, q);
  }

  lemma RepresentedCompare(net: Net, path: Path, b: Ledger, p: PeerId, q: PeerId)
    requires Represented(net, path, b) && p in net.peers && q in net.peers
    ensures Compared(ClockAt(net.peers[p], path), ClockAt(net.peers[q], path))
         == G.HistoryOrder(b.histories[p], b.histories[q])
    ensures forall c :: c in net.sent && c.path == path ==>
      c in b.announced && Compared(ClockAt(net.peers[p], path), c.clock)
        == G.HistoryOrder(b.histories[p], b.announced[c])
  {
    assert PeerRecorded(b, net.peers[p], path, p) && PeerRecorded(b, net.peers[q], path, q);
    ComparedHistories(ClockAt(net.peers[p], path), b.histories[p], ClockAt(net.peers[q], path), b.histories[q]);
    forall c | c in net.sent && c.path == path
      ensures c in b.announced
      ensures Compared(ClockAt(net.peers[p], path), c.clock) == G.HistoryOrder(b.histories[p], b.announced[c])
    {
      assert ChangeRecorded(b, c);
      ComparedHistories(ClockAt(net.peers[p], path), b.histories[p], c.clock, b.announced[c]);
    }
  }
}
