/** What the protocol's theorems say of the handlers' own metadata and files. */
module Handlers {
  import opened ByteStrings
  import opened Merkle
  import opened Disk
  import opened Clock
  import opened ConflictName
  import opened Replica
  import opened Transfer
  import opened Refinement
  import opened Network
  import opened Causality
  import Chunk
  import G = Gossip
  import V = Convergence
  import T = TwoPeers

  // ---- What the peers' own metadata says ----

  /** The held metadata is that of a handled change, and no handled change of the path is newer. */
  ghost predicate HoldsNewest(net: Net, p: PeerId, path: Path, k: Change)
    requires p in net.peers && p in net.handled
  {
    && k in net.handled[p] && k.path == path && path in net.peers[p].meta
    && net.peers[p].meta[path].modified == k.timestamp && net.peers[p].meta[path].modifiedBy == k.peer
    && forall c :: c in net.handled[p] && c.path == path ==> c.timestamp <= k.timestamp
  }

  /** After any run of edits, decisions, fetches and disturbances, what a peer's metadata says about a
      path is the newest change it has handled there. */
  lemma HandlersHoldNewest(hash: Hasher, cfgs: map<PeerId, Config>, net: Net, steps: seq<NetStep>, path: Path,
      p: PeerId)
    returns (k: Change)
    requires FirstNet(cfgs, net, path) && IsNetRun(hash, cfgs, net, steps, path, OnTime) && !IsConflictBackup(path)
    requires var t := NetRun(hash, cfgs, net, steps, path, OnTime);
      p in t.peers && p in t.handled && !HandledNone(t.handled[p], path)
    ensures HoldsNewest(NetRun(hash, cfgs, net, steps, path, OnTime), p, path, k)
  {
    var t, g := NetRun(hash, cfgs, net, steps, path, OnTime), FirstSystem(net, path);
    FirstSim(cfgs, net, path);
    var gs := RunRefines(hash, cfgs, net, steps, path, OnTime, g);
    var last := G.Run(g, gs);
    assert PeerSim(t, last, path, p);
    MatchesNone(t.handled[p], last.peers[p].seen, path);
    var n := V.HoldsGreatest(g, gs, p);
    k := NewestChange(t, last, path, p, n);
  }

  lemma NewestChange(net: Net, g: G.System, path: Path, p: PeerId, n: G.Note) returns (k: Change)
    requires p in net.peers && p in net.handled && p in g.peers
    requires PeerSim(net, g, path, p) && V.Holds(g.peers[p], n)
    ensures HoldsNewest(net, p, path, k)
  {
    assert Stands(n, net.handled[p], path);
    k :| k in net.handled[p] && k.path == path && NoteOf(k, n.history) == n;
    forall c | c in net.handled[p] && c.path == path
      ensures c.timestamp <= k.timestamp
    {
      assert Noted(c, g.peers[p].seen);
    }
  }

  /** So peers that have handled the same changes of a path agree on its stamp and author, unless two
      authors tie for the greatest timestamp. */
  lemma HandlersAgree(hash: Hasher, cfgs: map<PeerId, Config>, net: Net, steps: seq<NetStep>, path: Path, p: PeerId,
      q: PeerId)
    requires FirstNet(cfgs, net, path) && IsNetRun(hash, cfgs, net, steps, path, OnTime) && !IsConflictBackup(path)
    requires var t := NetRun(hash, cfgs, net, steps, path, OnTime);
      && p in t.peers && p in t.handled && q in t.peers && q in t.handled
      && !HandledNone(t.handled[p], path)
      && (forall c: Change :: c.path == path ==> (c in t.handled[p] <==> c in t.handled[q]))
      && forall c, d :: c in t.handled[p] && d in t.handled[p] && c.path == d.path == path && c.peer != d.peer ==>
        c.timestamp != d.timestamp || exists e :: e in t.handled[p] && e.path == path && e.timestamp > c.timestamp
    ensures var t := NetRun(hash, cfgs, net, steps, path, OnTime);
      && path in t.peers[p].meta && path in t.peers[q].meta
      && t.peers[p].meta[path].modified == t.peers[q].meta[path].modified
      && t.peers[p].meta[path].modifiedBy == t.peers[q].meta[path].modifiedBy
  {
    var t := NetRun(hash, cfgs, net, steps, path, OnTime);
    var c :| c in t.handled[p] && c.path == path;
    assert c in t.handled[q];
    var k := HandlersHoldNewest(hash, cfgs, net, steps, path, p);
    var m := HandlersHoldNewest(hash, cfgs, net, steps, path, q);
    assert k in t.handled[q] && m in t.handled[p];
  }

  // ---- Two peers ----

  lemma SameNote(g: G.System, m: G.Note, n: G.Note)
    requires G.Causal(g) && m in g.sent && n in g.sent
    requires m.clock == n.clock && m.timestamp == n.timestamp && m.peer == n.peer
    ensures m == n
  {
    assert G.NoteOk(g, m) && G.NoteOk(g, n);
    forall e: G.Event
      ensures e in m.history <==> e in n.history
    {
      assert e in m.history <==> 1 <= e.ordinal <= Get(m.clock, e.author);
      assert e in n.history <==> 1 <= e.ordinal <= Get(n.clock, e.author);
    }
  }

  lemma SeenIncluded(net: Net, g: G.System, path: Path, p: PeerId, q: PeerId)
    requires V.Chronological(g) && Sim(net, g, path) && p in net.peers && q in net.peers
    requires forall c :: c in net.handled[p] && c.path == path ==> c in net.handled[q]
    ensures g.peers[p].seen <= g.peers[q].seen
  {
    forall n | n in g.peers[p].seen
      ensures n in g.peers[q].seen
    {
      NoteIncluded(net, g, path, p, q, n);
    }
  }

  lemma NoteIncluded(net: Net, g: G.System, path: Path, p: PeerId, q: PeerId, n: G.Note)
    requires V.Chronological(g) && Sim(net, g, path) && p in net.peers && q in net.peers
    requires forall c :: c in net.handled[p] && c.path == path ==> c in net.handled[q]
    requires n in g.peers[p].seen
    ensures n in g.peers[q].seen
  {
    assert PeerSim(net, g, path, p) && PeerSim(net, g, path, q);
    assert V.LocalTimed(g.sent, g.peers[p]) && V.LocalTimed(g.sent, g.peers[q]);
    assert Stands(n, net.handled[p], path);
    var c :| c in net.handled[p] && c.path == path && NoteOf(c, n.history) == n;
    assert Noted(c, g.peers[q].seen);
    var h :| NoteOf(c, h) in g.peers[q].seen;
    SameNote(g, n, NoteOf(c, h));
  }

  lemma SameSeen(net: Net, g: G.System, path: Path, p: PeerId, q: PeerId)
    requires V.Chronological(g) && Sim(net, g, path) && p in net.peers && q in net.peers
    requires forall c: Change :: c.path == path ==> (c in net.handled[p] <==> c in net.handled[q])
    ensures g.peers[p].seen == g.peers[q].seen
  {
    SeenIncluded(net, g, path, p, q);
    SeenIncluded(net, g, path, q, p);
  }

  lemma SomethingSeen(net: Net, g: G.System, path: Path, p: PeerId)
    requires Sim(net, g, path) && p in net.peers && !HandledNone(net.handled[p], path)
    ensures g.peers[p].seen != {}
  {
    assert PeerSim(net, g, path, p);
    MatchesNone(net.handled[p], g.peers[p].seen, path);
  }

  lemma AgreementShows(net: Net, g: G.System, path: Path, p: PeerId, q: PeerId)
    requires Sim(net, g, path) && p in net.peers && q in net.peers && T.Agree(g.peers[p], g.peers[q])
    ensures path in net.peers[p].meta && path in net.peers[q].meta
    ensures net.peers[p].meta[path].modified == net.peers[q].meta[path].modified
    ensures net.peers[p].meta[path].modifiedBy == net.peers[q].meta[path].modifiedBy
  {
    assert PeerSim(net, g, path, p) && PeerSim(net, g, path, q);
  }

  lemma PairAgrees(net: Net, g: G.System, gs: seq<G.Step>, path: Path, p: PeerId, q: PeerId)
    requires G.Initial(g) && g.peers.Keys == {p, q} && T.IsCheckedRun(g, gs) && G.IsRun(g, gs)
      && Sim(net, G.Run(g, gs), path)
    requires p in net.handled && q in net.handled && !HandledNone(net.handled[p], path)
    requires forall c: Change :: c.path == path ==> (c in net.handled[p] <==> c in net.handled[q])
    ensures p in net.peers && q in net.peers && path in net.peers[p].meta && path in net.peers[q].meta
    ensures net.peers[p].meta[path].modified == net.peers[q].meta[path].modified
    ensures net.peers[p].meta[path].modifiedBy == net.peers[q].meta[path].modifiedBy
  {
    T.TwoPeersAgree(g, gs, p, q);
    T.InitialPaired(g, p, q);
    T.RunPaired(g, gs, p, q);
    SameSeen(net, G.Run(g, gs), path, p, q);
    SomethingSeen(net, G.Run(g, gs), path, p);
    AgreementShows(net, G.Run(g, gs), path, p, q);
  }

  /** Of two peers, if fetches are completed only while their version still wins, those that have
      handled the same changes of a path agree on its stamp and author, ties included. */
  lemma TwoHandlersAgree(hash: Hasher, cfgs: map<PeerId, Config>, net: Net, steps: seq<NetStep>, path: Path, p: PeerId,
      q: PeerId)
    requires FirstNet(cfgs, net, path) && cfgs.Keys == {p, q}
    requires IsNetRun(hash, cfgs, net, steps, path, StillWinning) && !IsConflictBackup(path)
    requires var t := NetRun(hash, cfgs, net, steps, path, StillWinning);
      && p in t.handled && q in t.handled && !HandledNone(t.handled[p], path)
      && forall c: Change :: c.path == path ==> (c in t.handled[p] <==> c in t.handled[q])
    ensures var t := NetRun(hash, cfgs, net, steps, path, StillWinning);
      && p in t.peers && q in t.peers && path in t.peers[p].meta && path in t.peers[q].meta
      && t.peers[p].meta[path].modified == t.peers[q].meta[path].modified
      && t.peers[p].meta[path].modifiedBy == t.peers[q].meta[path].modifiedBy
  {
    var t, g := NetRun(hash, cfgs, net, steps, path, StillWinning), FirstSystem(net, path);
    FirstSim(cfgs, net, path);
    var gs := RunRefines(hash, cfgs, net, steps, path, StillWinning, g);
    PairAgrees(t, g, gs, path, p, q);
  }

  // ---- Agreement on the bytes ----

  /** The data is what the change announces. */
  ghost predicate Announced(hash: Hasher, size: nat, c: Change, data: Bytes) {
    size > 0 && c.hash == Chunk.FileHashOf(hash, Chunk.Metadata(hash, data, size))
  }

  /** At the path, a completed fetch leaves the announced data, and nothing else touches the file. */
  ghost predicate Faithful(hash: Hasher, cfgs: map<PeerId, Config>, net: Net, step: NetStep, path: Path, size: nat)
    requires Can(cfgs, net, step)
  {
    var cfg, s := cfgs[step.p], net.peers[step.p];
    match step
    case Disturbed(_, disk) => DataAt(disk, path) == DataAt(s.disk, path)
    case Finished(_, c, target, remote) =>
      target == path && Fetches(cfg, s, remote, c, target) ==>
        Announced(hash, size, c, FetchedData(cfg, s.disk, remote, target, IndicesOf(c.chunks)).value)
    case _ => true
  }

  /** When the other side still has the announced file and sends all of it, and the hash function does not
      collide on it and on what the fetch makes of the local copy, the fetch is faithful if and only if the
      local copy is not longer. */
  lemma FaithfulFetchIff(hash: Hasher, cfg: Config, s: State, remote: Remote, c: Change, data: Bytes)
    requires cfg.lim.chunkSize > 0 && remote.lim == cfg.lim && !ShouldExclude(cfg.patterns, c.path)
    requires DataAt(remote.disk, c.path) == Some(data) && Fits(cfg.lim, data)
    requires ListsAllChunks(hash, cfg, data, c) && c.hash == Chunk.FileHashOf(hash, c.chunks)
    requires var local := if DataAt(s.disk, c.path).Some? then DataAt(s.disk, c.path).value else [];
      CollisionFree(hash, Chunk.HashInputs(hash, Patched(local, data), cfg.lim.chunkSize)
                          + Chunk.HashInputs(hash, data, cfg.lim.chunkSize))
    ensures var local := if DataAt(s.disk, c.path).Some? then DataAt(s.disk, c.path).value else [];
      var fetched := FetchedData(cfg, s.disk, remote, c.path, IndicesOf(c.chunks));
      && fetched.Some?
      && (Announced(hash, cfg.lim.chunkSize, c, fetched.value) <==> |local| <= |data|)
      && (|local| <= |data| ==> fetched.value == data)
  {
    var local := if DataAt(s.disk, c.path).Some? then DataAt(s.disk, c.path).value else [];
    FetchInstalls(hash, cfg, s.disk, remote, c.path, data, c);
    ReplacedIff(local, data);
    if Announced(hash, cfg.lim.chunkSize, c, Patched(local, data)) {
      Chunk.FileHashSound(hash, Patched(local, data), cfg.lim.chunkSize, data, cfg.lim.chunkSize);
    }
  }

  /** For what a peer announces of its own file, nothing needs to be assumed about the list of chunks. */
  lemma AnnouncedFetchIff(hash: Hasher, cfgQ: Config, q: State, path: Path, cfg: Config, s: State, remote: Remote)
    requires cfg.lim.chunkSize > 0 && cfgQ.lim == cfg.lim == remote.lim && !ShouldExclude(cfg.patterns, path)
    requires DataAt(q.disk, path).Some? && path in q.meta && DataAt(remote.disk, path) == DataAt(q.disk, path)
    requires Fits(cfg.lim, DataAt(q.disk, path).value)
    requires var local := if DataAt(s.disk, path).Some? then DataAt(s.disk, path).value else [];
      CollisionFree(hash, Chunk.HashInputs(hash, Patched(local, DataAt(q.disk, path).value), cfg.lim.chunkSize)
                          + Chunk.HashInputs(hash, DataAt(q.disk, path).value, cfg.lim.chunkSize))
    ensures var c := ChangeOf(hash, cfgQ, q, path);
      var local := if DataAt(s.disk, path).Some? then DataAt(s.disk, path).value else [];
      var fetched := FetchedData(cfg, s.disk, remote, path, IndicesOf(c.chunks));
      && fetched.Some?
      && (Announced(hash, cfg.lim.chunkSize, c, fetched.value) <==> |local| <= |DataAt(q.disk, path).value|)
  {
    AnnouncementListsAll(hash, cfgQ, q, path);
    FaithfulFetchIff(hash, cfg, s, remote, ChangeOf(hash, cfgQ, q, path), DataAt(q.disk, path).value);
  }

  /** The change lists every chunk of some file, under the aggregate hash of that list. */
  ghost predicate Complete(hash: Hasher, cfgs: map<PeerId, Config>, c: Change) {
    && c.peer in cfgs && cfgs[c.peer].lim.chunkSize > 0 && c.hash == Chunk.FileHashOf(hash, c.chunks)
    && exists data :: ListsAllChunks(hash, cfgs[c.peer], data, c)
  }

  /** An edit leaves its data on the author's disk and announces every chunk of it. */
  lemma EditAnnouncesAll(hash: Hasher, cfgs: map<PeerId, Config>, net: Net, step: NetStep)
    requires step.Edited? && Can(cfgs, net, step)
    ensures var c := EditChange(hash, cfgs[step.p], net.peers[step.p], step.path, step.data, step.now);
      && c in Next(hash, cfgs, net, step).sent
      && DataAt(Next(hash, cfgs, net, step).peers[step.p].disk, step.path) == Some(step.data)
      && ListsAllChunks(hash, cfgs[step.p], step.data, c) && Complete(hash, cfgs, c)
  {
    WriteData(net.peers[step.p].disk, step.path, step.data, step.path);
    var c := EditChange(hash, cfgs[step.p], net.peers[step.p], step.path, step.data, step.now);
    assert c.peer == step.p && ListsAllChunks(hash, cfgs[c.peer], step.data, c);
  }

  lemma StepComplete(hash: Hasher, cfgs: map<PeerId, Config>, net: Net, step: NetStep)
    requires Can(cfgs, net, step) && forall c :: c in net.sent ==> Complete(hash, cfgs, c)
    ensures forall c :: c in Next(hash, cfgs, net, step).sent ==> Complete(hash, cfgs, c)
  {
    if step.Edited? {
      EditAnnouncesAll(hash, cfgs, net, step);
    }
  }

  /** Over every run of the network each announcement lists all chunks of the file announced. */
  lemma {:induction false} RunComplete(hash: Hasher, cfgs: map<PeerId, Config>, net: Net, steps: seq<NetStep>,
      path: Path, rule: Rule)
    requires IsNetRun(hash, cfgs, net, steps, path, rule) && forall c :: c in net.sent ==> Complete(hash, cfgs, c)
    ensures forall c :: c in NetRun(hash, cfgs, net, steps, path, rule).sent ==> Complete(hash, cfgs, c)
    decreases steps
  {
    if steps != [] {
      StepComplete(hash, cfgs, net, steps[0]);
      RunComplete(hash, cfgs, Next(hash, cfgs, net, steps[0]), steps[1..], path, rule);
    }
  }

  ghost predicate IsFaithfulRun(hash: Hasher, cfgs: map<PeerId, Config>, net: Net, steps: seq<NetStep>, path: Path,
      rule: Rule, size: nat)
    requires IsNetRun(hash, cfgs, net, steps, path, rule)
    decreases steps
  {
    steps == []
    || (Faithful(hash, cfgs, net, steps[0], path, size)
        && IsFaithfulRun(hash, cfgs, Next(hash, cfgs, net, steps[0]), steps[1..], path, rule, size))
  }

  /** The metadata is that of a change sent, and the file holds what it announces. */
  ghost predicate HeldFrom(hash: Hasher, s: State, path: Path, size: nat, k: Change) {
    && k.path == path && path in s.meta && s.meta[path].modified == k.timestamp && s.meta[path].modifiedBy == k.peer
    && DataAt(s.disk, path).Some? && Announced(hash, size, k, DataAt(s.disk, path).value)
  }

  ghost predicate HoldsAnnounced(hash: Hasher, s: State, sent: set<Change>, path: Path, size: nat) {
    ClockAt(s, path) != map[] ==> exists k :: k in sent && HeldFrom(hash, s, path, size, k)
  }

  ghost predicate AllHoldAnnounced(hash: Hasher, net: Net, path: Path, size: nat) {
    && (forall p :: p in net.peers ==> HoldsAnnounced(hash, net.peers[p], net.sent, path, size))
    && (forall f :: f in net.pending ==> f.1 in net.sent && (f.2 == path ==> f.1.path == path))
  }

  lemma StillAnnounced(hash: Hasher, s: State, t: State, sent: set<Change>, more: set<Change>, path: Path, size: nat)
    requires HoldsAnnounced(hash, s, sent, path, size) && Untouched(s, t, path)
    ensures HoldsAnnounced(hash, t, sent + more, path, size)
  {
    if ClockAt(t, path) != map[] {
      var k :| k in sent && HeldFrom(hash, s, path, size, k);
      assert k in sent + more && HeldFrom(hash, t, path, size, k);
    }
  }

  /** One peer changes, and announcements may be added. */
  lemma PeerAnnounced(hash: Hasher, net: Net, next: Net, p: PeerId, path: Path, size: nat, more: set<Change>)
    requires AllHoldAnnounced(hash, net, path, size) && p in net.peers && p in next.peers
    requires next.peers == net.peers[p := next.peers[p]] && next.sent == net.sent + more
    requires HoldsAnnounced(hash, next.peers[p], next.sent, path, size)
    requires forall f :: f in next.pending && f !in net.pending ==>
      f.1 in next.sent && (f.2 == path ==> f.1.path == path)
    ensures AllHoldAnnounced(hash, next, path, size)
  {
    forall q | q in next.peers
      ensures HoldsAnnounced(hash, next.peers[q], next.sent, path, size)
    {
      if q != p {
        StillAnnounced(hash, net.peers[q], next.peers[q], net.sent, more, path, size);
      }
    }
  }

  lemma EditAnnounced(hash: Hasher, cfgs: map<PeerId, Config>, net: Net, step: NetStep, path: Path, size: nat)
    requires step.Edited? && Can(cfgs, net, step) && cfgs[step.p].lim.chunkSize == size
    requires AllHoldAnnounced(hash, net, path, size)
    ensures AllHoldAnnounced(hash, Next(hash, cfgs, net, step), path, size)
  {
    var cfg, s, next := cfgs[step.p], net.peers[step.p], Next(hash, cfgs, net, step);
    var c := EditChange(hash, cfg, s, step.path, step.data, step.now);
    var t := AfterEdit(hash, cfg, s, step.path, step.data, step.now);
    WriteData(s.disk, step.path, step.data, step.path);
    WriteData(s.disk, step.path, step.data, path);
    if step.path == path {
      assert HeldFrom(hash, t, path, size, c);
    } else {
      StillAnnounced(hash, s, t, net.sent, {c}, path, size);
    }
    PeerAnnounced(hash, net, next, step.p, path, size, {c});
  }

  lemma BackupUntouched(cfg: Config, s: State, c: Change, path: Path)
    requires !IsConflictBackup(path)
    ensures Untouched(s, s.(disk := DiskFor(cfg, s, c)), path)
  {
    var backup := ConflictPath(c.path, cfg.localId);
    ConflictPathIsBackup(c.path, cfg.localId);
    if CanBackUp(s.disk, c.path, backup) {
      WriteData(s.disk, backup, DataAt(s.disk, c.path).value, path);
    }
  }

  lemma DecideAnnounced(hash: Hasher, cfgs: map<PeerId, Config>, net: Net, p: PeerId, c: Change, path: Path, size: nat)
    requires Can(cfgs, net, Decided(p, c)) && AllHoldAnnounced(hash, net, path, size) && !IsConflictBackup(path)
    ensures AllHoldAnnounced(hash, Next(hash, cfgs, net, Decided(p, c)), path, size)
  {
    var s, next := net.peers[p], Next(hash, cfgs, net, Decided(p, c));
    DecidedNet(hash, cfgs, net, p, c);
    BackupUntouched(cfgs[p], s, c, path);
    TargetElsewhere(cfgs[p], s, c, path);
    StillAnnounced(hash, s, next.peers[p], net.sent, {}, path, size);
    assert net.sent + {} == net.sent;
    PeerAnnounced(hash, net, next, p, path, size, {});
  }

  lemma FinishAnnounced(hash: Hasher, cfgs: map<PeerId, Config>, net: Net, step: NetStep, path: Path, size: nat)
    requires step.Finished? && Can(cfgs, net, step) && Faithful(hash, cfgs, net, step, path, size)
    requires AllHoldAnnounced(hash, net, path, size)
    ensures AllHoldAnnounced(hash, Next(hash, cfgs, net, step), path, size)
  {
    var cfg, s, c, next := cfgs[step.p], net.peers[step.p], step.c, Next(hash, cfgs, net, step);
    assert net.sent + {} == net.sent;
    assert (step.p, c, step.target).1 in net.sent;
    if step.target != path {
      FetchUntouched(hash, cfg, s, step.remote, step.target, IndicesOf(c.chunks), OriginOf(c), path);
      StillAnnounced(hash, s, next.peers[step.p], net.sent, {}, path, size);
    } else if Fetches(cfg, s, step.remote, c, path) {
      WriteData(s.disk, path, FetchedData(cfg, s.disk, step.remote, path, IndicesOf(c.chunks)).value, path);
      assert HeldFrom(hash, next.peers[step.p], path, size, c);
    }
    PeerAnnounced(hash, net, next, step.p, path, size, {});
  }

  lemma StepAnnounced(hash: Hasher, cfgs: map<PeerId, Config>, net: Net, step: NetStep, path: Path, rule: Rule,
      size: nat)
    requires Can(cfgs, net, step) && InTime(cfgs, net, step, path, rule) && Faithful(hash, cfgs, net, step, path, size)
    requires AllHoldAnnounced(hash, net, path, size) && !IsConflictBackup(path)
    requires cfgs[step.p].lim.chunkSize == size
    ensures AllHoldAnnounced(hash, Next(hash, cfgs, net, step), path, size)
  {
    var s, next := net.peers[step.p], Next(hash, cfgs, net, step);
    match step
    case Edited(_, _, _, _) => EditAnnounced(hash, cfgs, net, step, path, size);
    case Decided(p, c) => DecideAnnounced(hash, cfgs, net, p, c, path, size);
    case Finished(_, _, _, _) => FinishAnnounced(hash, cfgs, net, step, path, size);
    case _ =>
      if IsAside(step) {
        AsideUntouched(hash, cfgs, net, step, path, rule);
      }
      StillAnnounced(hash, s, next.peers[step.p], net.sent, {}, path, size);
      assert net.sent + {} == net.sent;
      PeerAnnounced(hash, net, next, step.p, path, size, {});
  }

  lemma {:induction false} RunAnnounced(hash: Hasher, cfgs: map<PeerId, Config>, net: Net, steps: seq<NetStep>,
      path: Path, rule: Rule, size: nat)
    requires IsNetRun(hash, cfgs, net, steps, path, rule) && IsFaithfulRun(hash, cfgs, net, steps, path, rule, size)
    requires AllHoldAnnounced(hash, net, path, size) && !IsConflictBackup(path)
    requires forall p :: p in cfgs ==> cfgs[p].lim.chunkSize == size
    ensures AllHoldAnnounced(hash, NetRun(hash, cfgs, net, steps, path, rule), path, size)
    decreases steps
  {
    if steps != [] {
      StepAnnounced(hash, cfgs, net, steps[0], path, rule, size);
      RunAnnounced(hash, cfgs, Next(hash, cfgs, net, steps[0]), steps[1..], path, rule, size);
    }
  }

  lemma SameHashSameData(hash: Hasher, size: nat, c: Change, a: Bytes, d: Change, b: Bytes)
    requires Announced(hash, size, c, a) && Announced(hash, size, d, b) && c.hash == d.hash
    requires CollisionFree(hash, Chunk.HashInputs(hash, a, size) + Chunk.HashInputs(hash, b, size))
    ensures a == b
  {
    Chunk.FileHashSound(hash, a, size, b, size);
  }

  predicate SameStampOf(c: Change, d: Change) {
    c.timestamp == d.timestamp && c.peer == d.peer
  }

  /** An author announces one content under one stamp. */
  ghost predicate OneContentPerStamp(sent: set<Change>, path: Path) {
    forall c, d :: c in sent && d in sent && c.path == path && d.path == path && SameStampOf(c, d) ==>
      c.hash == d.hash
  }

  /** What hashing the file at the path feeds to the hash function. */
  ghost function InputsAt(hash: Hasher, disk: Fs, path: Path, size: nat): set<Bytes>
    requires size > 0
  {
    if DataAt(disk, path).Some? then Chunk.HashInputs(hash, DataAt(disk, path).value, size) else {}
  }

  lemma SameHeldBytes(hash: Hasher, s: State, t: State, sent: set<Change>, path: Path, size: nat)
    requires HoldsAnnounced(hash, s, sent, path, size) && HoldsAnnounced(hash, t, sent, path, size)
    requires ClockAt(s, path) != map[] && ClockAt(t, path) != map[]
    requires s.meta[path].modified == t.meta[path].modified && s.meta[path].modifiedBy == t.meta[path].modifiedBy
    requires OneContentPerStamp(sent, path) && size > 0
    requires CollisionFree(hash, InputsAt(hash, s.disk, path, size) + InputsAt(hash, t.disk, path, size))
    ensures DataAt(s.disk, path).Some? && DataAt(s.disk, path) == DataAt(t.disk, path)
  {
    var c :| c in sent && HeldFrom(hash, s, path, size, c);
    var d :| d in sent && HeldFrom(hash, t, path, size, d);
    SameHashSameData(hash, size, c, DataAt(s.disk, path).value, d, DataAt(t.disk, path).value);
  }

  /** Over every run whose fetches leave the announced data: peers whose metadata names the same stamp
      and author hold the same bytes, unless that author announced two contents under one stamp. */
  lemma SameStampSameBytes(hash: Hasher, cfgs: map<PeerId, Config>, net: Net, steps: seq<NetStep>, path: Path,
      rule: Rule, size: nat, p: PeerId, q: PeerId)
    requires FirstNet(cfgs, net, path) && !IsConflictBackup(path)
    requires IsNetRun(hash, cfgs, net, steps, path, rule) && IsFaithfulRun(hash, cfgs, net, steps, path, rule, size)
    requires forall r :: r in cfgs ==> cfgs[r].lim.chunkSize == size
    requires var t := NetRun(hash, cfgs, net, steps, path, rule);
      && p in t.peers && q in t.peers
      && ClockAt(t.peers[p], path) != map[] && ClockAt(t.peers[q], path) != map[]
      && t.peers[p].meta[path].modified == t.peers[q].meta[path].modified
      && t.peers[p].meta[path].modifiedBy == t.peers[q].meta[path].modifiedBy
      && OneContentPerStamp(t.sent, path) && size > 0
      && CollisionFree(hash, InputsAt(hash, t.peers[p].disk, path, size) + InputsAt(hash, t.peers[q].disk, path, size))
    ensures var t := NetRun(hash, cfgs, net, steps, path, rule);
      DataAt(t.peers[p].disk, path).Some? && DataAt(t.peers[p].disk, path) == DataAt(t.peers[q].disk, path)
  {
    var t := NetRun(hash, cfgs, net, steps, path, rule);
    RunAnnounced(hash, cfgs, net, steps, path, rule, size);
    SameHeldBytes(hash, t.peers[p], t.peers[q], t.sent, path, size);
  }
}
