/** The handlers, seen at one path, take the steps of the file-change protocol. */
module Refinement {
  import opened ByteStrings
  import opened Merkle
  import opened Disk
  import opened Clock
  import opened ConflictName
  import opened Replica
  import opened Transfer
  import opened Fetching
  import Chunk
  import G = Gossip

  /** A peer's protocol state for one path: its metadata, with any history behind it. */
  ghost predicate Shows(s: State, path: Path, l: G.Local) {
    l.meta == if path in s.meta then Some(s.meta[path]) else None
  }

  ghost function NoteOf(c: Change, history: set<G.Event>): G.Note {
    G.Note(c.clock, c.timestamp, c.peer, history)
  }

  /** The disk on which the fetched version is written, after a losing version is copied aside. */
  function DiskFor(cfg: Config, s: State, c: Change): Fs {
    if Verdict(cfg, s, c) == Conflict(cfg.localId)
    then BackedUp(s.disk, c.path, ConflictPath(c.path, cfg.localId)) else s.disk
  }

  predicate FetchSucceeds(cfg: Config, s: State, remote: Remote, c: Change)
    requires remote.lim.chunkSize > 0
  {
    Stores(cfg, DiskFor(cfg, s, c), remote, c.path, IndicesOf(c.chunks))
  }

  /** Handling a change decides as the protocol does; if the fetch succeeds, the path's metadata
      becomes what the protocol's delivery makes of it, and rejected or won versions leave it alone. */
  lemma ChangeRefinesDelivery(hash: Hasher, cfg: Config, s: State, remote: Remote, c: Change, l: G.Local,
      history: set<G.Event>)
    requires cfg.lim.chunkSize > 0 && remote.lim.chunkSize > 0
    requires c.peer != cfg.localId && Shows(s, c.path, l)
    ensures Verdict(cfg, s, c) == G.Decision(cfg.localId, l, NoteOf(c, history))
    ensures var t := ChangeHandled(hash, cfg, s, remote, c);
      if Adopts(Verdict(cfg, s, c), cfg.localId) && !FetchSucceeds(cfg, s, remote, c)
      then Shows(t, c.path, l)
      else Shows(t, c.path, G.Delivered(cfg.localId, l, NoteOf(c, history)))
  {
    if Verdict(cfg, s, c).Conflict? {
      ConflictPathIsBackup(c.path, Verdict(cfg, s, c).loser);
    }
  }

  /** Handling a local change is the protocol's edit, and what is announced is its announcement. */
  lemma LocalChangeRefinesEdit(hash: Hasher, cfg: Config, s: State, path: Path, now: nat, l: G.Local)
    requires cfg.lim.chunkSize > 0 && DataAt(s.disk, path).Some? && Shows(s, path, l)
    requires Get(G.ClockOf(l), cfg.localId) < U64_MAX
    ensures Get(MetaAt(s, path, cfg.localId).clock, cfg.localId) < U64_MAX
    ensures var t := LocalChanged(hash, cfg, s, path, now);
      var l' := G.Edited(cfg.localId, l, now);
      && Shows(t, path, l')
      && NoteOf(ChangeOf(hash, cfg, t, path), l'.history) == G.Announcement(cfg.localId, l')
      && forall q :: q != path ==> (q in t.meta <==> q in s.meta) && (q in t.meta ==> t.meta[q] == s.meta[q])
  {
  }

  /** The notification lists every chunk of the file as the announcing peer splits it. */
  ghost predicate ListsAllChunks(hash: Hasher, cfg: Config, data: Bytes, c: Change)
    requires cfg.lim.chunkSize > 0
  {
    c.chunks == Chunk.Metadata(hash, data, cfg.lim.chunkSize)
  }

  /** What a fetch of every chunk makes of the local copy. */
  lemma FetchInstalls(hash: Hasher, cfg: Config, disk: Fs, remote: Remote, path: Path, data: Bytes, c: Change)
    requires cfg.lim.chunkSize > 0 && remote.lim == cfg.lim && !ShouldExclude(cfg.patterns, path)
    requires DataAt(remote.disk, path) == Some(data) && Fits(cfg.lim, data) && ListsAllChunks(hash, cfg, data, c)
    ensures var local := if DataAt(disk, path).Some? then DataAt(disk, path).value else [];
      FetchedData(cfg, disk, remote, path, IndicesOf(c.chunks)) == Some(Patched(local, data))
  {
    var local := if DataAt(disk, path).Some? then DataAt(disk, path).value else [];
    var indices := IndicesOf(c.chunks);
    forall i: nat | i < |Chunk.Pieces(data, cfg.lim.chunkSize)|
      ensures i in indices
    {
      assert indices[i] == i;
    }
    FullTransfer(cfg.lim, data, local, indices);
  }

  /** Copying the losing version aside touches neither the path itself nor its being writable. */
  lemma DiskForKeeps(cfg: Config, s: State, c: Change)
    requires Writable(s.disk, c.path)
    ensures DataAt(DiskFor(cfg, s, c), c.path) == DataAt(s.disk, c.path) && Writable(DiskFor(cfg, s, c), c.path)
  {
    var backup := ConflictPath(c.path, cfg.localId);
    ConflictPathIsBackup(c.path, cfg.localId);
    if CanBackUp(s.disk, c.path, backup) {
      var after := Write(s.disk, backup, DataAt(s.disk, c.path).value);
      WriteData(s.disk, backup, DataAt(s.disk, c.path).value, c.path);
      FileIsWritable(after, c.path);
    }
  }

  /** What the clocks say after adopting: the same as the announced version if that came later, more
      than it if the two were concurrent. */
  lemma AdoptedClock(held: Counters, announced: Counters)
    requires Compared(held, announced) == Before || Compared(held, announced) == Concurrent
    ensures Compared(Merged(held, announced), announced) == if Compared(held, announced) == Before then Equal else After
  {
    MergeIsLeastUpperBound(held, announced, announced);
    if Leq(Merged(held, announced), announced) {
      LeqTransitive(held, Merged(held, announced), announced);
    }
  }

  /** Adopting an announced version, accepted outright or after losing to it, installs the announced
      data if and only if the local copy was not longer; otherwise its tail stays, under the announced
      version's stamp and a clock that covers it. */
  lemma AdoptionInstallsIff(hash: Hasher, cfg: Config, s: State, remote: Remote, c: Change)
    requires cfg.lim.chunkSize > 0 && remote.lim == cfg.lim && c.peer != cfg.localId
    requires Adopts(Verdict(cfg, s, c), cfg.localId) && Writable(s.disk, c.path) && !ShouldExclude(cfg.patterns, c.path)
    requires DataAt(remote.disk, c.path).Some? && Fits(cfg.lim, DataAt(remote.disk, c.path).value)
    requires ListsAllChunks(hash, cfg, DataAt(remote.disk, c.path).value, c)
    ensures var t, data := ChangeHandled(hash, cfg, s, remote, c), DataAt(remote.disk, c.path).value;
      var local := if DataAt(s.disk, c.path).Some? then DataAt(s.disk, c.path).value else [];
      && DataAt(t.disk, c.path) == Some(Patched(local, data))
      && (DataAt(t.disk, c.path) == Some(data) <==> |local| <= |data|)
      && c.path in t.meta && t.meta[c.path].modified == c.timestamp && t.meta[c.path].modifiedBy == c.peer
      && Compared(t.meta[c.path].clock, c.clock) == if Verdict(cfg, s, c) == Accept then Equal else After
  {
    var data := DataAt(remote.disk, c.path).value;
    var local := if DataAt(s.disk, c.path).Some? then DataAt(s.disk, c.path).value else [];
    var disk := DiskFor(cfg, s, c);
    var origin := Origin(c.clock, c.timestamp, c.peer);
    DiskForKeeps(cfg, s, c);
    FetchInstalls(hash, cfg, disk, remote, c.path, data, c);
    assert ChangeHandled(hash, cfg, s, remote, c)
      == Stored(hash, cfg, s.(disk := disk), c.path, Patched(local, data), origin);
    WriteData(disk, c.path, Patched(local, data), c.path);
    ReplacedIff(local, data);
    AdoptedClock(MetaAt(s, c.path, cfg.localId).clock, c.clock);
    AdoptedClock(MetaAt(s, c.path, c.peer).clock, c.clock);
  }

  /** An announcement lists every chunk of the file as it is on the announcing peer's disk, under the
      aggregate hash of that list. */
  lemma AnnouncementListsAll(hash: Hasher, cfg: Config, s: State, path: Path)
    requires cfg.lim.chunkSize > 0 && DataAt(s.disk, path).Some? && path in s.meta
    ensures var c := ChangeOf(hash, cfg, s, path);
      && ListsAllChunks(hash, cfg, DataAt(s.disk, path).value, c) && c.hash == Chunk.FileHashOf(hash, c.chunks)
      && c.path == path && c.peer == cfg.localId
  {
  }

  /** From one peer's disk to another's: when a peer adopts what `q` announces, and `q` still has that file
      when asked, it ends up with `q`'s file if and only if its own was not longer, and with `q`'s stamp
      either way. */
  lemma AnnouncedFileArrivesIff(hash: Hasher, cfgQ: Config, q: State, path: Path, cfg: Config, s: State, remote: Remote)
    requires cfg.lim.chunkSize > 0 && cfgQ.lim == cfg.lim == remote.lim && cfgQ.localId != cfg.localId
    requires DataAt(q.disk, path).Some? && path in q.meta && DataAt(remote.disk, path) == DataAt(q.disk, path)
    requires Fits(cfg.lim, DataAt(q.disk, path).value)
    requires Adopts(Verdict(cfg, s, ChangeOf(hash, cfgQ, q, path)), cfg.localId)
    requires Writable(s.disk, path) && !ShouldExclude(cfg.patterns, path)
    ensures var t := ChangeHandled(hash, cfg, s, remote, ChangeOf(hash, cfgQ, q, path));
      var local := if DataAt(s.disk, path).Some? then DataAt(s.disk, path).value else [];
      && (DataAt(t.disk, path) == DataAt(q.disk, path) <==> |local| <= |DataAt(q.disk, path).value|)
      && path in t.meta && t.meta[path].modified == q.meta[path].modified && t.meta[path].modifiedBy == cfgQ.localId
  {
    AnnouncementListsAll(hash, cfgQ, q, path);
    AdoptionInstallsIff(hash, cfg, s, remote, ChangeOf(hash, cfgQ, q, path));
  }

  /** Two peers whose versions are concurrent name the same loser, and so the same backup; once each
      has been delivered the other's version, however often, both hold the winner's stamp and author. */
  lemma ConflictAgreement(p: PeerId, l: G.Local, q: PeerId, m: G.Local, path: Path)
    requires p != q && l.meta.Some? && m.meta.Some?
    requires l.meta.value.modifiedBy == p && m.meta.value.modifiedBy == q
    requires Compared(G.ClockOf(l), G.ClockOf(m)) == Concurrent
    ensures var x, y := G.Announcement(p, l), G.Announcement(q, m);
      var atP, atQ := G.Decision(p, l, y), G.Decision(q, m, x);
      && atP.Conflict? && atP == atQ
      && ConflictPath(path, atP.loser) == ConflictPath(path, atQ.loser)
      && IsConflictBackup(ConflictPath(path, atP.loser))
    ensures var x, y := G.Announcement(p, l), G.Announcement(q, m);
      var l', m' := G.Delivered(p, l, y), G.Delivered(q, m, x);
      && l'.meta.Some? && m'.meta.Some?
      && l'.meta.value.modified == m'.meta.value.modified
      && l'.meta.value.modifiedBy == m'.meta.value.modifiedBy
      && l'.meta.value.modifiedBy != G.Decision(p, l, y).loser
      && G.Delivered(p, l', y) == l' && G.Delivered(q, m', x) == m'
  {
    var x, y := G.Announcement(p, l), G.Announcement(q, m);
    ResolveSymmetric(G.ClockOf(l), G.ClockOf(m), l.meta.value.modified, m.meta.value.modified, p, q);
    ConflictPathIsBackup(path, G.Decision(p, l, y).loser);
    Redelivered(p, l, y);
    Redelivered(q, m, x);
  }

  lemma Redelivered(p: PeerId, l: G.Local, n: G.Note)
    requires n.peer != p
    ensures G.Delivered(p, G.Delivered(p, l, n), n) == G.Delivered(p, l, n)
  {
    MergeIsLeastUpperBound(G.ClockOf(l), n.clock, n.clock);
    var l' := G.Delivered(p, l, n);
    assert l'.seen + {n} == l'.seen;
    assert l'.(seen := l'.seen + {n}) == l';
  }
}
