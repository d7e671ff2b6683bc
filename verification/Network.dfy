/** Peers running the handlers and exchanging changes, in any interleaving. Seen at one path they
    follow the file-change protocol, so that protocol's convergence is theirs. */
module Network {
  import opened ByteStrings
  import opened Merkle
  import opened Disk
  import opened Clock
  import opened ConflictName
  import opened Replica
  import opened Fetching
  import opened Refinement
  import G = Gossip
  import V = Convergence
  import T = TwoPeers

  /** A fetch that has been decided on: who fetches which change, and to which path. */
  type Fetch = (PeerId, Change, Path)

  /** `sent` keeps every change announced, `pending` every fetch decided on; `handled` records which
      changes a peer has made, turned down or completely fetched. */
  datatype Net = Net(peers: map<PeerId, State>, sent: set<Change>, pending: set<Fetch>,
                     handled: map<PeerId, set<Change>>)

  datatype NetStep =
    | Edited(p: PeerId, path: Path, data: Bytes, now: nat)
    | Disturbed(p: PeerId, disk: Fs)
    | Decided(p: PeerId, c: Change)
    | Finished(p: PeerId, c: Change, target: Path, remote: Remote)
    | LocalDelete(p: PeerId, path: Path, now: nat)
    | RemoteDelete(p: PeerId, tombstone: Tombstone)
    | Pulled(p: PeerId, remote: Remote, now: nat)

  predicate Configured(cfgs: map<PeerId, Config>, net: Net) {
    && net.peers.Keys == net.handled.Keys == cfgs.Keys
    && forall p :: p in cfgs ==> cfgs[p].localId == p && cfgs[p].lim.chunkSize > 0
  }

  /** A fetch or a pull may be answered by anyone in any state, and any tombstone may arrive; a
      disturbance is any change of the folder that the engine is not told about. */
  predicate Can(cfgs: map<PeerId, Config>, net: Net, step: NetStep) {
    && Configured(cfgs, net) && step.p in cfgs
    && match step
       case Edited(p, path, _, _) =>
         && Writable(net.peers[p].disk, path) && !ShouldExclude(cfgs[p].patterns, path) && !IsConflictBackup(path)
         && Get(MetaAt(net.peers[p], path, p).clock, p) < U64_MAX
       case Disturbed(_, _) => true
       case Decided(p, c) => c in net.sent && c.peer != p
       case Finished(p, c, target, remote) => (p, c, target) in net.pending && remote.lim.chunkSize > 0
       case LocalDelete(_, _, _) => true
       case RemoteDelete(_, _) => true
       case Pulled(_, remote, _) => remote.lim.chunkSize > 0
  }

  // ---- One step ----

  function AfterEdit(hash: Hasher, cfg: Config, s: State, path: Path, data: Bytes, now: nat): State
    requires cfg.lim.chunkSize > 0 && Writable(s.disk, path)
      && Get(MetaAt(s, path, cfg.localId).clock, cfg.localId) < U64_MAX
  {
    WriteData(s.disk, path, data, path);
    LocalChanged(hash, cfg, s.(disk := Write(s.disk, path, data)), path, now)
  }

  function EditChange(hash: Hasher, cfg: Config, s: State, path: Path, data: Bytes, now: nat): Change
    requires cfg.lim.chunkSize > 0 && Writable(s.disk, path)
      && Get(MetaAt(s, path, cfg.localId).clock, cfg.localId) < U64_MAX
  {
    WriteData(s.disk, path, data, path);
    ChangeOf(hash, cfg, AfterEdit(hash, cfg, s, path, data, now), path)
  }

  /** Where the decided fetch goes, if there is one. */
  function TargetOf(cfg: Config, s: State, c: Change): Option<Path> {
    match Verdict(cfg, s, c)
    case Accept => Some(c.path)
    case Reject => None
    case Conflict(loser) => Some(if loser == cfg.localId then c.path else ConflictPath(c.path, loser))
  }

  predicate Fetches(cfg: Config, s: State, remote: Remote, c: Change, target: Path)
    requires remote.lim.chunkSize > 0
  {
    Stores(cfg, s.disk, remote, target, IndicesOf(c.chunks))
  }

  function OriginOf(c: Change): Origin {
    Origin(c.clock, c.timestamp, c.peer)
  }

  function Next(hash: Hasher, cfgs: map<PeerId, Config>, net: Net, step: NetStep): Net
    requires Can(cfgs, net, step)
  {
    var cfg, s := cfgs[step.p], net.peers[step.p];
    match step
    case Edited(p, path, data, now) =>
      var c := EditChange(hash, cfg, s, path, data, now);
      Net(net.peers[p := AfterEdit(hash, cfg, s, path, data, now)], net.sent + {c}, net.pending,
          net.handled[p := net.handled[p] + {c}])
    case Disturbed(p, disk) => net.(peers := net.peers[p := s.(disk := disk)])
    case Decided(p, c) =>
      var target := TargetOf(cfg, s, c);
      Net(net.peers[p := s.(disk := DiskFor(cfg, s, c))], net.sent,
          if target.Some? then net.pending + {(p, c, target.value)} else net.pending,
          if Adopts(Verdict(cfg, s, c), p) then net.handled else net.handled[p := net.handled[p] + {c}])
    case Finished(p, c, target, remote) =>
      net.(peers := net.peers[p := Fetched(hash, cfg, s, remote, target, IndicesOf(c.chunks), OriginOf(c))],
           handled := if target == c.path && Fetches(cfg, s, remote, c, target)
                      then net.handled[p := net.handled[p] + {c}] else net.handled)
    case LocalDelete(p, path, now) => net.(peers := net.peers[p := LocalDeleted(hash, cfg, s, path, now)])
    case RemoteDelete(p, t) => net.(peers := net.peers[p := DeleteHandled(hash, cfg, s, t)])
    case Pulled(p, remote, now) => net.(peers := net.peers[p := Reconciled(hash, cfg, s, remote, now)])
  }

  /** The handler for a change is a decision and, unless it rejects, the fetch decided on. */
  lemma HandlerIsDecideThenFinish(hash: Hasher, cfgs: map<PeerId, Config>, net: Net, p: PeerId, c: Change,
      remote: Remote)
    requires Can(cfgs, net, Decided(p, c)) && remote.lim.chunkSize > 0
    ensures var decided, target := Next(hash, cfgs, net, Decided(p, c)), TargetOf(cfgs[p], net.peers[p], c);
      var handled := ChangeHandled(hash, cfgs[p], net.peers[p], remote, c);
      if target == None then decided.peers[p] == handled
      else
        && Can(cfgs, decided, Finished(p, c, target.value, remote))
        && Next(hash, cfgs, decided, Finished(p, c, target.value, remote)).peers[p] == handled
  {
    var s := net.peers[p];
    assert s.(disk := s.disk) == s;
  }

  // ---- Runs ----

  ghost predicate HandledNone(changes: set<Change>, path: Path) {
    forall c :: c in changes ==> c.path != path
  }

  /** What is asked of edits and completed fetches at the path in question: nothing; that no edit is
      stamped earlier than the version it replaces and no fetch completes after something newer has come
      to be held; or that of edits, and of fetches that their version still wins when they complete. */
  datatype Rule = AnyTime | OnTime | StillWinning

  /** A pull does not ask for the file at the path. */
  ghost predicate PullAvoids(cfg: Config, tree: Node, remote: Node, path: Path) {
    forall it :: it in PullItems(cfg, tree, remote) ==> it.path != path
  }

  ghost predicate FetchInTime(cfg: Config, s: State, handled: set<Change>, c: Change, path: Path, rule: Rule) {
    match rule
    case AnyTime => true
    case OnTime => HandledNone(handled, path) || MetaAt(s, path, cfg.localId).modified <= c.timestamp
    case StillWinning =>
      || Adopts(Verdict(cfg, s, c), cfg.localId)
      || (path in s.meta && s.meta[path].modified == c.timestamp && s.meta[path].modifiedBy == c.peer)
  }

  /** The rule is kept at the path, and neither a delete nor a pull is about it; what happens at other
      paths is free. */
  ghost predicate InTime(cfgs: map<PeerId, Config>, net: Net, step: NetStep, path: Path, rule: Rule)
    requires Can(cfgs, net, step)
  {
    var cfg, s := cfgs[step.p], net.peers[step.p];
    match step
    case Edited(p, at, _, now) => at == path && rule != AnyTime ==> now >= MetaAt(s, path, p).modified
    case Finished(p, c, target, remote) =>
      target == path && Fetches(cfg, s, remote, c, target) ==> FetchInTime(cfg, s, net.handled[p], c, path, rule)
    case LocalDelete(_, at, _) => at != path
    case RemoteDelete(_, t) => t.path != path
    case Pulled(_, remote, _) => PullAvoids(cfg, s.tree, remote.tree, path)
    case _ => true
  }

  ghost predicate IsNetRun(hash: Hasher, cfgs: map<PeerId, Config>, net: Net, steps: seq<NetStep>, path: Path,
      rule: Rule)
    decreases steps
  {
    steps == []
    || (Can(cfgs, net, steps[0]) && InTime(cfgs, net, steps[0], path, rule)
        && IsNetRun(hash, cfgs, Next(hash, cfgs, net, steps[0]), steps[1..], path, rule))
  }

  ghost function NetRun(hash: Hasher, cfgs: map<PeerId, Config>, net: Net, steps: seq<NetStep>, path: Path,
      rule: Rule): Net
    requires IsNetRun(hash, cfgs, net, steps, path, rule)
    decreases steps
  {
    if steps == [] then net else NetRun(hash, cfgs, Next(hash, cfgs, net, steps[0]), steps[1..], path, rule)
  }

  /** At first nothing has been announced and every clock of the path is empty. */
  ghost predicate FirstNet(cfgs: map<PeerId, Config>, net: Net, path: Path) {
    && Configured(cfgs, net) && net.sent == {} && net.pending == {}
    && forall p :: p in net.peers ==>
      net.handled[p] == {} && (path in net.peers[p].meta ==> net.peers[p].meta[path].clock == map[])
  }

  // ---- The protocol behind it ----

  ghost predicate Noted(c: Change, notes: set<G.Note>) {
    exists h :: NoteOf(c, h) in notes
  }

  ghost predicate Stands(n: G.Note, changes: set<Change>, path: Path) {
    exists c :: c in changes && c.path == path && NoteOf(c, n.history) == n
  }

  /** The notes are the changes of the path, each with some history. */
  ghost predicate Matches(changes: set<Change>, notes: set<G.Note>, path: Path) {
    && (forall c {:trigger Noted(c, notes)} :: c in changes && c.path == path ==> Noted(c, notes))
    && (forall n {:trigger Stands(n, changes, path)} :: n in notes ==> Stands(n, changes, path))
  }

  ghost predicate PendingAt(f: Fetch, pending: set<(PeerId, G.Note)>, path: Path) {
    f.2 == path ==> f.1.path == path && exists h :: (f.0, NoteOf(f.1, h)) in pending
  }

  ghost predicate PeerSim(net: Net, g: G.System, path: Path, p: PeerId)
    requires p in net.peers && p in net.handled && p in g.peers
  {
    Shows(net.peers[p], path, g.peers[p]) && Matches(net.handled[p], g.peers[p].seen, path)
  }

  /** The protocol's state is the network's, seen at one path. */
  ghost predicate Sim(net: Net, g: G.System, path: Path) {
    && net.peers.Keys == net.handled.Keys == g.peers.Keys
    && (forall p :: p in net.peers ==> PeerSim(net, g, path, p))
    && Matches(net.sent, g.sent, path)
    && (forall f :: f in net.pending ==> PendingAt(f, g.pending, path))
  }

  lemma MatchesHere(changes: set<Change>, notes: set<G.Note>, path: Path, c: Change, n: G.Note)
    requires Matches(changes, notes, path) && c.path == path && NoteOf(c, n.history) == n
    ensures Matches(changes + {c}, notes + {n}, path)
  {
    forall d | d in changes + {c} && d.path == path
      ensures Noted(d, notes + {n})
    {
      if d in changes {
        assert Noted(d, notes);
      }
    }
    forall m | m in notes + {n}
      ensures Stands(m, changes + {c}, path)
    {
      if m in notes {
        assert Stands(m, changes, path);
      }
    }
  }

  lemma MatchesElsewhere(changes: set<Change>, notes: set<G.Note>, path: Path, c: Change)
    requires Matches(changes, notes, path) && c.path != path
    ensures Matches(changes + {c}, notes, path)
  {
    forall m | m in notes
      ensures Stands(m, changes + {c}, path)
    {
      assert Stands(m, changes, path);
    }
  }

  lemma MatchesNone(changes: set<Change>, notes: set<G.Note>, path: Path)
    requires Matches(changes, notes, path)
    ensures HandledNone(changes, path) <==> notes == {}
  {
    if !HandledNone(changes, path) {
      var c :| c in changes && c.path == path;
      assert Noted(c, notes);
    }
    if n :| n in notes {
      assert Stands(n, changes, path);
    }
  }

  /** One peer changes on both sides, everything sent and pending stays. */
  lemma SimPeer(net: Net, g: G.System, path: Path, p: PeerId, s: State, l: G.Local, handled: set<Change>)
    requires Sim(net, g, path) && p in net.peers
    requires Shows(s, path, l) && Matches(handled, l.seen, path)
    ensures Sim(net.(peers := net.peers[p := s], handled := net.handled[p := handled]), g.(peers := g.peers[p := l]),
      path)
  {
    var net', g' := net.(peers := net.peers[p := s], handled := net.handled[p := handled]),
      g.(peers := g.peers[p := l]);
    forall q | q in net'.peers
      ensures PeerSim(net', g', path, q)
    {
      assert q != p ==> PeerSim(net, g, path, q);
    }
  }

  /** One peer changes in the network only. */
  lemma SimPeerOnly(net: Net, g: G.System, path: Path, p: PeerId, s: State, handled: set<Change>)
    requires Sim(net, g, path) && p in net.peers
    requires Shows(s, path, g.peers[p]) && Matches(handled, g.peers[p].seen, path)
    ensures Sim(net.(peers := net.peers[p := s], handled := net.handled[p := handled]), g, path)
  {
    SimPeer(net, g, path, p, s, g.peers[p], handled);
    assert g.peers[p := g.peers[p]] == g.peers;
    assert g.(peers := g.peers) == g;
  }

  lemma SimSent(net: Net, g: G.System, path: Path, changes: set<Change>, notes: set<G.Note>)
    requires Sim(net, g, path) && Matches(changes, notes, path)
    ensures Sim(net.(sent := changes), g.(sent := notes), path)
  {
    forall p | p in net.peers
      ensures PeerSim(net.(sent := changes), g.(sent := notes), path, p)
    {
      assert PeerSim(net, g, path, p);
    }
  }

  /** More decisions on the protocol's side do no harm. */
  lemma SimMorePending(net: Net, g: G.System, path: Path, more: set<(PeerId, G.Note)>)
    requires Sim(net, g, path)
    ensures Sim(net, g.(pending := g.pending + more), path)
  {
    var g' := g.(pending := g.pending + more);
    forall p | p in net.peers
      ensures PeerSim(net, g', path, p)
    {
      assert PeerSim(net, g, path, p);
    }
    forall e | e in net.pending
      ensures PendingAt(e, g'.pending, path)
    {
      assert PendingAt(e, g.pending, path);
      if e.2 == path {
        var h :| (e.0, NoteOf(e.1, h)) in g.pending;
        assert (e.0, NoteOf(e.1, h)) in g'.pending;
      }
    }
  }

  /** A fetch decided on, the peer's metadata staying as it is. */
  lemma SimDecided(net: Net, g: G.System, path: Path, p: PeerId, s: State, fetches: set<Fetch>)
    requires Sim(net, g, path) && p in net.peers && s.meta == net.peers[p].meta
    requires forall f :: f in fetches ==> PendingAt(f, g.pending, path)
    ensures Sim(net.(peers := net.peers[p := s], pending := net.pending + fetches), g, path)
  {
    var net' := net.(peers := net.peers[p := s], pending := net.pending + fetches);
    forall q | q in net.peers
      ensures PeerSim(net', g, path, q)
    {
      assert PeerSim(net, g, path, q);
    }
  }

  lemma EditHere(hash: Hasher, cfgs: map<PeerId, Config>, net: Net, step: NetStep, path: Path, g: G.System)
    requires step.Edited? && step.path == path && Can(cfgs, net, step) && Sim(net, g, path)
    ensures G.Allowed(g, G.Edit(step.p, step.now))
    ensures Sim(Next(hash, cfgs, net, step), G.Next(g, G.Edit(step.p, step.now)), path)
  {
    var p, cfg, s, l := step.p, cfgs[step.p], net.peers[step.p], g.peers[step.p];
    var s1 := s.(disk := Write(s.disk, path, step.data));
    var t, c := AfterEdit(hash, cfg, s, path, step.data, step.now), EditChange(hash, cfg, s, path, step.data, step.now);
    assert PeerSim(net, g, path, p);
    WriteData(s.disk, path, step.data, path);
    LocalChangeRefinesEdit(hash, cfg, s1, path, step.now, l);
    var l' := G.Edited(p, l, step.now);
    var n := G.Announcement(p, l');
    MatchesHere(net.handled[p], l.seen, path, c, n);
    MatchesHere(net.sent, g.sent, path, c, n);
    SimPeer(net, g, path, p, t, l', net.handled[p] + {c});
    SimSent(net.(peers := net.peers[p := t], handled := net.handled[p := net.handled[p] + {c}]),
      g.(peers := g.peers[p := l']), path, net.sent + {c}, g.sent + {n});
  }

  lemma EditElsewhere(hash: Hasher, cfgs: map<PeerId, Config>, net: Net, step: NetStep, path: Path, g: G.System)
    requires step.Edited? && step.path != path && Can(cfgs, net, step) && Sim(net, g, path)
    ensures Sim(Next(hash, cfgs, net, step), g, path)
  {
    var p, cfg, s := step.p, cfgs[step.p], net.peers[step.p];
    var t := AfterEdit(hash, cfg, s, step.path, step.data, step.now);
    var c := EditChange(hash, cfg, s, step.path, step.data, step.now);
    assert PeerSim(net, g, path, p);
    MatchesElsewhere(net.handled[p], g.peers[p].seen, path, c);
    MatchesElsewhere(net.sent, g.sent, path, c);
    SimPeerOnly(net, g, path, p, t, net.handled[p] + {c});
    SimSent(net.(peers := net.peers[p := t], handled := net.handled[p := net.handled[p] + {c}]), g, path,
      net.sent + {c}, g.sent);
    assert g.(sent := g.sent) == g;
  }

  lemma EditUnder(cfgs: map<PeerId, Config>, net: Net, step: NetStep, path: Path, g: G.System, rule: Rule)
    requires step.Edited? && step.path == path && Can(cfgs, net, step) && InTime(cfgs, net, step, path, rule)
      && Sim(net, g, path)
    ensures IsStepUnder(g, G.Edit(step.p, step.now), rule)
  {
    assert PeerSim(net, g, path, step.p);
  }

  lemma EditRefines(hash: Hasher, cfgs: map<PeerId, Config>, net: Net, step: NetStep, path: Path, g: G.System,
      rule: Rule)
    returns (gs: seq<G.Step>)
    requires step.Edited? && Can(cfgs, net, step) && InTime(cfgs, net, step, path, rule) && Sim(net, g, path)
    ensures Refined(Next(hash, cfgs, net, step), g, gs, path, rule)
  {
    if step.path == path {
      EditUnder(cfgs, net, step, path, g, rule);
      EditHere(hash, cfgs, net, step, path, g);
      gs := OneStep(Next(hash, cfgs, net, step), g, G.Edit(step.p, step.now), path, rule);
    } else {
      EditElsewhere(hash, cfgs, net, step, path, g);
      gs := NoStep(Next(hash, cfgs, net, step), g, path, rule);
    }
  }

  ghost predicate IsRunUnder(g: G.System, gs: seq<G.Step>, rule: Rule) {
    && G.IsRun(g, gs)
    && (rule == OnTime ==> V.IsTimedRun(g, gs))
    && (rule == StillWinning ==> T.IsCheckedRun(g, gs))
  }

  ghost predicate IsStepUnder(g: G.System, step: G.Step, rule: Rule) {
    && G.Allowed(g, step)
    && (rule == OnTime ==> V.OnTime(g, step))
    && (rule == StillWinning ==> T.Checked(g, step))
  }

  /** The steps lead the protocol to a state that is again the network's. */
  ghost predicate Refined(net: Net, g: G.System, gs: seq<G.Step>, path: Path, rule: Rule) {
    IsRunUnder(g, gs, rule) && Sim(net, G.Run(g, gs), path)
  }

  lemma NoStep(net: Net, g: G.System, path: Path, rule: Rule) returns (gs: seq<G.Step>)
    requires Sim(net, g, path)
    ensures Refined(net, g, gs, path, rule)
  {
    gs := [];
  }

  lemma OneStep(net: Net, g: G.System, step: G.Step, path: Path, rule: Rule) returns (gs: seq<G.Step>)
    requires IsStepUnder(g, step, rule) && Sim(net, G.Next(g, step), path)
    ensures Refined(net, g, gs, path, rule)
  {
    gs := [step];
    assert gs[1..] == [];
    assert V.IsTimedRun(G.Next(g, step), []) && G.IsRun(G.Next(g, step), []) && T.IsCheckedRun(G.Next(g, step), []);
    assert G.Run(G.Next(g, step), []) == G.Next(g, step);
  }

  function Wanted(cfg: Config, s: State, p: PeerId, c: Change): set<Fetch> {
    var target := TargetOf(cfg, s, c);
    if target.Some? then {(p, c, target.value)} else {}
  }

  lemma DecidedNet(hash: Hasher, cfgs: map<PeerId, Config>, net: Net, p: PeerId, c: Change)
    requires Can(cfgs, net, Decided(p, c))
    ensures var cfg, s := cfgs[p], net.peers[p];
      var handled := if Adopts(Verdict(cfg, s, c), p) then net.handled else net.handled[p := net.handled[p] + {c}];
      Next(hash, cfgs, net, Decided(p, c))
        == net.(handled := handled).(peers := net.peers[p := s.(disk := DiskFor(cfg, s, c))],
                                    pending := net.pending + Wanted(cfg, s, p, c))
  {
  }

  /** Only an adopting decision at a path asks for that path. */
  lemma TargetElsewhere(cfg: Config, s: State, c: Change, path: Path)
    requires !IsConflictBackup(path)
    ensures TargetOf(cfg, s, c) == Some(path) ==> c.path == path && Adopts(Verdict(cfg, s, c), cfg.localId)
    ensures c.path == path && Adopts(Verdict(cfg, s, c), cfg.localId) ==> TargetOf(cfg, s, c) == Some(path)
  {
    if Verdict(cfg, s, c).Conflict? {
      ConflictPathIsBackup(c.path, Verdict(cfg, s, c).loser);
    }
  }

  lemma VerdictIsDecision(cfg: Config, s: State, c: Change, path: Path, l: G.Local, n: G.Note)
    requires Shows(s, path, l) && c.path == path && n == NoteOf(c, n.history)
    ensures Verdict(cfg, s, c) == G.Decision(cfg.localId, l, n)
  {
  }

  /** An adopting decision at the path. */
  lemma DecideAdopt(hash: Hasher, cfgs: map<PeerId, Config>, net: Net, p: PeerId, c: Change, path: Path, g: G.System,
      n: G.Note)
    requires Can(cfgs, net, Decided(p, c)) && Sim(net, g, path) && !IsConflictBackup(path) && c.path == path
    requires n == NoteOf(c, n.history) && Adopts(Verdict(cfgs[p], net.peers[p], c), p)
    ensures Sim(Next(hash, cfgs, net, Decided(p, c)), g.(pending := g.pending + {(p, n)}), path)
  {
    var g' := g.(pending := g.pending + {(p, n)});
    DecidedNet(hash, cfgs, net, p, c);
    TargetElsewhere(cfgs[p], net.peers[p], c, path);
    SimMorePending(net, g, path, {(p, n)});
    assert (p, NoteOf(c, n.history)) in g'.pending;
    assert PendingAt((p, c, path), g'.pending, path);
    assert net.(handled := net.handled) == net;
    SimDecided(net, g', path, p, net.peers[p].(disk := DiskFor(cfgs[p], net.peers[p], c)),
      Wanted(cfgs[p], net.peers[p], p, c));
  }

  /** Whatever else is decided leaves the path alone, except that a refused change has been handled. */
  lemma DecideOther(hash: Hasher, cfgs: map<PeerId, Config>, net: Net, p: PeerId, c: Change, path: Path, g: G.System)
    requires Can(cfgs, net, Decided(p, c)) && !IsConflictBackup(path)
    requires c.path == path ==> !Adopts(Verdict(cfgs[p], net.peers[p], c), p)
    requires Sim(net.(handled := Next(hash, cfgs, net, Decided(p, c)).handled), g, path)
    ensures Sim(Next(hash, cfgs, net, Decided(p, c)), g, path)
  {
    DecidedNet(hash, cfgs, net, p, c);
    TargetElsewhere(cfgs[p], net.peers[p], c, path);
    SimDecided(net.(handled := Next(hash, cfgs, net, Decided(p, c)).handled), g, path, p,
      net.peers[p].(disk := DiskFor(cfgs[p], net.peers[p], c)), Wanted(cfgs[p], net.peers[p], p, c));
  }

  lemma HandledHere(net: Net, g: G.System, path: Path, p: PeerId, c: Change, n: G.Note)
    requires Sim(net, g, path) && p in net.peers && c.path == path && NoteOf(c, n.history) == n
    ensures var l := g.peers[p];
      Sim(net.(handled := net.handled[p := net.handled[p] + {c}]), g.(peers := g.peers[p := l.(seen := l.seen + {n})]),
        path)
  {
    assert PeerSim(net, g, path, p);
    var l := g.peers[p];
    MatchesHere(net.handled[p], l.seen, path, c, n);
    SimPeer(net, g, path, p, net.peers[p], l.(seen := l.seen + {n}), net.handled[p] + {c});
    assert net.peers[p := net.peers[p]] == net.peers;
  }

  lemma HandledElsewhere(net: Net, g: G.System, path: Path, p: PeerId, c: Change)
    requires Sim(net, g, path) && p in net.peers && c.path != path
    ensures Sim(net.(handled := net.handled[p := net.handled[p] + {c}]), g, path)
  {
    assert PeerSim(net, g, path, p);
    MatchesElsewhere(net.handled[p], g.peers[p].seen, path, c);
    SimPeerOnly(net, g, path, p, net.peers[p], net.handled[p] + {c});
    assert net.peers[p := net.peers[p]] == net.peers;
  }

  lemma DecideElsewhere(hash: Hasher, cfgs: map<PeerId, Config>, net: Net, p: PeerId, c: Change, path: Path,
      g: G.System)
    requires Can(cfgs, net, Decided(p, c)) && Sim(net, g, path) && !IsConflictBackup(path) && c.path != path
    ensures Sim(Next(hash, cfgs, net, Decided(p, c)), g, path)
  {
    HandledElsewhere(net, g, path, p, c);
    assert net.(handled := net.handled) == net;
    DecideOther(hash, cfgs, net, p, c, path, g);
  }

  lemma DecideHere(hash: Hasher, cfgs: map<PeerId, Config>, net: Net, p: PeerId, c: Change, path: Path, g: G.System,
      n: G.Note)
    requires Can(cfgs, net, Decided(p, c)) && Sim(net, g, path) && !IsConflictBackup(path) && c.path == path
    requires n == NoteOf(c, n.history) && n in g.sent
    ensures G.Allowed(g, G.Decide(p, n)) && Sim(Next(hash, cfgs, net, Decided(p, c)), G.Next(g, G.Decide(p, n)), path)
  {
    assert PeerSim(net, g, path, p);
    VerdictIsDecision(cfgs[p], net.peers[p], c, path, g.peers[p], n);
    if Adopts(Verdict(cfgs[p], net.peers[p], c), p) {
      DecideAdopt(hash, cfgs, net, p, c, path, g, n);
    } else {
      HandledHere(net, g, path, p, c, n);
      DecidedNet(hash, cfgs, net, p, c);
      DecideOther(hash, cfgs, net, p, c, path, g.(peers := g.peers[p := g.peers[p].(seen := g.peers[p].seen + {n})]));
    }
  }

  lemma DecideRefines(hash: Hasher, cfgs: map<PeerId, Config>, net: Net, p: PeerId, c: Change, path: Path, g: G.System,
      rule: Rule)
    returns (gs: seq<G.Step>)
    requires Can(cfgs, net, Decided(p, c)) && Sim(net, g, path) && !IsConflictBackup(path)
    ensures Refined(Next(hash, cfgs, net, Decided(p, c)), g, gs, path, rule)
  {
    if c.path != path {
      DecideElsewhere(hash, cfgs, net, p, c, path, g);
      gs := NoStep(Next(hash, cfgs, net, Decided(p, c)), g, path, rule);
    } else {
      assert Noted(c, g.sent);
      var h :| NoteOf(c, h) in g.sent;
      var n := NoteOf(c, h);
      DecideHere(hash, cfgs, net, p, c, path, g, n);
      gs := OneStep(Next(hash, cfgs, net, Decided(p, c)), g, G.Decide(p, n), path, rule);
    }
  }

  /** The note behind a fetch completed at the path. */
  lemma FinishNote(cfgs: map<PeerId, Config>, net: Net, step: NetStep, path: Path, g: G.System, rule: Rule)
    returns (n: G.Note)
    requires step.Finished? && Can(cfgs, net, step) && InTime(cfgs, net, step, path, rule) && Sim(net, g, path)
    requires step.target == path && Fetches(cfgs[step.p], net.peers[step.p], step.remote, step.c, path)
    ensures step.c.path == path && n == NoteOf(step.c, n.history) && IsStepUnder(g, G.Apply(step.p, n), rule)
  {
    var p, c := step.p, step.c;
    assert PeerSim(net, g, path, p);
    assert PendingAt((p, c, path), g.pending, path);
    var h :| (p, NoteOf(c, h)) in g.pending;
    n := NoteOf(c, h);
    MatchesNone(net.handled[p], g.peers[p].seen, path);
    FetchUnder(cfgs[p], net.peers[p], net.handled[p], c, path, g.peers[p], n, rule);
  }

  /** A fetch completed at the path. */
  lemma FinishHere(hash: Hasher, cfgs: map<PeerId, Config>, net: Net, step: NetStep, path: Path, g: G.System, n: G.Note)
    requires step.Finished? && Can(cfgs, net, step) && Sim(net, g, path) && step.c.path == path
      && n == NoteOf(step.c, n.history)
    requires step.target == path && Fetches(cfgs[step.p], net.peers[step.p], step.remote, step.c, path)
    ensures var l := g.peers[step.p];
      Sim(Next(hash, cfgs, net, step), g.(peers := g.peers[step.p := G.Adopted(l, n)]), path)
  {
    var p, c, cfg, s, l := step.p, step.c, cfgs[step.p], net.peers[step.p], g.peers[step.p];
    assert PeerSim(net, g, path, p);
    MatchesHere(net.handled[p], l.seen, path, c, n);
    var t := Fetched(hash, cfg, s, step.remote, path, IndicesOf(c.chunks), OriginOf(c));
    FetchShows(hash, cfg, s, step.remote, c, path, l, n);
    SimPeer(net, g, path, p, t, G.Adopted(l, n), net.handled[p] + {c});
  }

  lemma FetchUnder(cfg: Config, s: State, handled: set<Change>, c: Change, path: Path, l: G.Local, n: G.Note,
      rule: Rule)
    requires Shows(s, path, l) && c.path == path && n == NoteOf(c, n.history)
    requires FetchInTime(cfg, s, handled, c, path, rule) && (HandledNone(handled, path) <==> l.seen == {})
    ensures rule == OnTime ==> V.MayReplace(l, n)
    ensures rule == StillWinning ==> T.StillWins(cfg.localId, l, n)
  {
    VerdictIsDecision(cfg, s, c, path, l, n);
  }

  lemma FetchShows(hash: Hasher, cfg: Config, s: State, remote: Remote, c: Change, path: Path, l: G.Local, n: G.Note)
    requires cfg.lim.chunkSize > 0 && remote.lim.chunkSize > 0 && Fetches(cfg, s, remote, c, path)
    requires Shows(s, path, l) && n == NoteOf(c, n.history)
    ensures Shows(Fetched(hash, cfg, s, remote, path, IndicesOf(c.chunks), OriginOf(c)), path, G.Adopted(l, n))
  {
  }

  /** A fetch that fails, or whose target is another path. */
  lemma FinishElsewhere(hash: Hasher, cfgs: map<PeerId, Config>, net: Net, step: NetStep, path: Path, g: G.System)
    requires step.Finished? && Can(cfgs, net, step) && Sim(net, g, path)
    requires !(step.target == path && Fetches(cfgs[step.p], net.peers[step.p], step.remote, step.c, path))
    ensures Sim(Next(hash, cfgs, net, step), g, path)
  {
    var p, c, cfg, s := step.p, step.c, cfgs[step.p], net.peers[step.p];
    assert PeerSim(net, g, path, p);
    var t := Fetched(hash, cfg, s, step.remote, step.target, IndicesOf(c.chunks), OriginOf(c));
    SimPeerOnly(net, g, path, p, t, net.handled[p]);
    assert net.handled[p := net.handled[p]] == net.handled;
    if step.target == c.path && Fetches(cfg, s, step.remote, c, step.target) {
      HandledElsewhere(net.(peers := net.peers[p := t]), g, path, p, c);
    }
  }

  lemma FinishRefines(hash: Hasher, cfgs: map<PeerId, Config>, net: Net, step: NetStep, path: Path, g: G.System,
      rule: Rule)
    returns (gs: seq<G.Step>)
    requires step.Finished? && Can(cfgs, net, step) && InTime(cfgs, net, step, path, rule) && Sim(net, g, path)
    ensures Refined(Next(hash, cfgs, net, step), g, gs, path, rule)
  {
    if step.target == path && Fetches(cfgs[step.p], net.peers[step.p], step.remote, step.c, path) {
      var n := FinishNote(cfgs, net, step, path, g, rule);
      FinishHere(hash, cfgs, net, step, path, g, n);
      gs := OneStep(Next(hash, cfgs, net, step), g, G.Apply(step.p, n), path, rule);
    } else {
      FinishElsewhere(hash, cfgs, net, step, path, g);
      gs := NoStep(Next(hash, cfgs, net, step), g, path, rule);
    }
  }

  // ---- Steps that are about other paths ----

  /** Neither metadata nor data of the path differ. */
  ghost predicate Untouched(s: State, t: State, path: Path) {
    && (path in t.meta <==> path in s.meta) && (path in s.meta ==> t.meta[path] == s.meta[path])
    && DataAt(t.disk, path) == DataAt(s.disk, path)
  }

  lemma FetchUntouched(hash: Hasher, cfg: Config, s: State, remote: Remote, at: Path, indices: seq<nat>,
      origin: Origin, path: Path)
    requires cfg.lim.chunkSize > 0 && remote.lim.chunkSize > 0 && at != path
    ensures Untouched(s, Fetched(hash, cfg, s, remote, at, indices, origin), path)
  {
    FetchElsewhere(hash, cfg, s, remote, at, indices, origin, path);
  }

  lemma {:induction false} ItemsUntouched(hash: Hasher, cfg: Config, s: State, remote: Remote, items: seq<Item>,
      now: nat,
      path: Path)
    requires cfg.lim.chunkSize > 0 && remote.lim.chunkSize > 0 && forall it :: it in items ==> it.path != path
    ensures Untouched(s, ItemsFetched(hash, cfg, s, remote, items, now), path)
    decreases items
  {
    if items != [] {
      var it := items[0];
      FetchUntouched(hash, cfg, s, remote, it.path, Upto(it.chunks), Origin(map[], now, remote.id), path);
      ItemsUntouched(hash, cfg, ItemFetched(hash, cfg, s, remote, it, now), remote, items[1..], now, path);
    }
  }

  ghost predicate IsAside(step: NetStep) {
    step.LocalDelete? || step.RemoteDelete? || step.Pulled?
  }

  /** Deletes and pulls that are not about the path leave metadata and data there alone. */
  lemma AsideUntouched(hash: Hasher, cfgs: map<PeerId, Config>, net: Net, step: NetStep, path: Path, rule: Rule)
    requires IsAside(step) && Can(cfgs, net, step) && InTime(cfgs, net, step, path, rule)
    ensures Untouched(net.peers[step.p], Next(hash, cfgs, net, step).peers[step.p], path)
  {
    var cfg, s := cfgs[step.p], net.peers[step.p];
    match step
    case LocalDelete(_, _, _) =>
    case RemoteDelete(_, t) =>
      if Unlinkable(s.disk, t.path) {
        UnlinkData(s.disk, t.path, path);
      }
    case Pulled(_, remote, now) =>
      PullIsItems(hash, cfg, s, remote, now);
      ItemsUntouched(hash, cfg, s, remote, PullItems(cfg, s.tree, remote.tree), now, path);
  }

  lemma AsideSim(hash: Hasher, cfgs: map<PeerId, Config>, net: Net, step: NetStep, path: Path, g: G.System, rule: Rule)
    requires IsAside(step) && Can(cfgs, net, step) && InTime(cfgs, net, step, path, rule) && Sim(net, g, path)
    ensures Sim(Next(hash, cfgs, net, step), g, path)
  {
    AsideUntouched(hash, cfgs, net, step, path, rule);
    AsideNet(hash, cfgs, net, step);
    SimAside(net, g, path, step.p, Next(hash, cfgs, net, step).peers[step.p]);
  }

  lemma AsideNet(hash: Hasher, cfgs: map<PeerId, Config>, net: Net, step: NetStep)
    requires IsAside(step) && Can(cfgs, net, step)
    ensures Next(hash, cfgs, net, step) == net.(peers := net.peers[step.p := Next(hash, cfgs, net, step).peers[step.p]])
  {
  }

  lemma SimAside(net: Net, g: G.System, path: Path, p: PeerId, s: State)
    requires Sim(net, g, path) && p in net.peers && Untouched(net.peers[p], s, path)
    ensures Sim(net.(peers := net.peers[p := s]), g, path)
  {
    assert PeerSim(net, g, path, p);
    SimPeerOnly(net, g, path, p, s, net.handled[p]);
    assert net.handled[p := net.handled[p]] == net.handled;
  }

  lemma Disturbance(hash: Hasher, cfgs: map<PeerId, Config>, net: Net, step: NetStep, path: Path, g: G.System)
    requires step.Disturbed? && Can(cfgs, net, step) && Sim(net, g, path)
    ensures Sim(Next(hash, cfgs, net, step), g, path)
  {
    var p := step.p;
    assert PeerSim(net, g, path, p);
    SimPeerOnly(net, g, path, p, net.peers[p].(disk := step.disk), net.handled[p]);
    assert net.handled[p := net.handled[p]] == net.handled;
  }

  lemma StepRefines(hash: Hasher, cfgs: map<PeerId, Config>, net: Net, step: NetStep, path: Path, g: G.System,
      rule: Rule)
    returns (gs: seq<G.Step>)
    requires Can(cfgs, net, step) && InTime(cfgs, net, step, path, rule) && Sim(net, g, path) && !IsConflictBackup(path)
    ensures Refined(Next(hash, cfgs, net, step), g, gs, path, rule)
  {
    match step
    case Edited(_, _, _, _) => gs := EditRefines(hash, cfgs, net, step, path, g, rule);
    case Decided(_, _) => gs := DecideRefines(hash, cfgs, net, step.p, step.c, path, g, rule);
    case Finished(_, _, _, _) => gs := FinishRefines(hash, cfgs, net, step, path, g, rule);
    case Disturbed(_, _) =>
      Disturbance(hash, cfgs, net, step, path, g);
      gs := NoStep(Next(hash, cfgs, net, step), g, path, rule);
    case _ =>
      AsideSim(hash, cfgs, net, step, path, g, rule);
      gs := NoStep(Next(hash, cfgs, net, step), g, path, rule);
  }

  lemma {:induction false} RunsAppend(g: G.System, a: seq<G.Step>, b: seq<G.Step>, rule: Rule)
    requires IsRunUnder(g, a, rule) && IsRunUnder(G.Run(g, a), b, rule)
    ensures IsRunUnder(g, a + b, rule) && G.Run(g, a + b) == G.Run(G.Run(g, a), b)
    decreases a
  {
    if a == [] {
      assert a + b == b;
    } else {
      assert (a + b)[1..] == a[1..] + b;
      RunsAppend(G.Next(g, a[0]), a[1..], b, rule);
    }
  }

  /** Every run of the network, seen at a path that is no conflict backup, is a run of the protocol: an
      edit is an edit, a decision a decision, a completed fetch an application; failed fetches,
      disturbances, and deletes, pulls and whatever else is about other paths are no steps at all. */
  lemma {:induction false} RunRefines(hash: Hasher, cfgs: map<PeerId, Config>, net: Net, steps: seq<NetStep>,
      path: Path, rule: Rule, g: G.System)
    returns (gs: seq<G.Step>)
    requires IsNetRun(hash, cfgs, net, steps, path, rule) && Sim(net, g, path) && !IsConflictBackup(path)
    ensures Refined(NetRun(hash, cfgs, net, steps, path, rule), g, gs, path, rule)
    decreases steps
  {
    if steps == [] {
      gs := [];
    } else {
      var first := StepRefines(hash, cfgs, net, steps[0], path, g, rule);
      var rest := RunRefines(hash, cfgs, Next(hash, cfgs, net, steps[0]), steps[1..], path, rule, G.Run(g, first));
      RunsAppend(g, first, rest, rule);
      gs := first + rest;
    }
  }

  ghost function FirstSystem(net: Net, path: Path): G.System {
    G.System(map p | p in net.peers ::
      G.Local(if path in net.peers[p].meta then Some(net.peers[p].meta[path]) else None, {}, 0, {}), {}, {})
  }

  lemma FirstSim(cfgs: map<PeerId, Config>, net: Net, path: Path)
    requires FirstNet(cfgs, net, path)
    ensures G.Initial(FirstSystem(net, path)) && Sim(net, FirstSystem(net, path), path)
  {
    var g := FirstSystem(net, path);
    forall p | p in net.peers
      ensures PeerSim(net, g, path, p)
    {
    }
  }
}
