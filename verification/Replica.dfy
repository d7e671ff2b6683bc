/** One peer: its folder on disk and its index, and the handlers that change them. */
module Replica {
  import opened ByteStrings
  import opened Merkle
  import opened Disk
  import opened Clock
  import opened Transfer
  import opened ConflictName
  import opened MerkleDiff
  import Chunk

  datatype Config = Config(localId: PeerId, lim: Limits, patterns: seq<Name>, noPull: bool) {
    function Scanning(): ScanConfig {
      ScanConfig(lim.chunkSize, patterns)
    }
  }

  datatype Tombstone = Tombstone(path: Path, deletedBy: PeerId, clock: Counters, timestamp: nat)

  datatype State = State(disk: Fs, tree: Node, meta: map<Path, FileMeta>, tombstones: seq<Tombstone>)

  /** What the other side answers requests from. */
  datatype Remote = Remote(disk: Fs, tree: Node, lim: Limits, id: PeerId)

  datatype Origin = Origin(clock: Counters, timestamp: nat, peer: PeerId)

  datatype Change = Change(path: Path, hash: Digest, chunks: seq<Chunk.ChunkMeta>, clock: Counters, timestamp: nat,
                           peer: PeerId)

  function MetaAt(s: State, path: Path, otherwise: PeerId): FileMeta {
    if path in s.meta then s.meta[path] else FileMeta(map[], 0, otherwise)
  }

  // ---- The state changes ----

  /** `local_file_changed`: re-hash the file into the tree and tick its clock. */
  function LocalChanged(hash: Hasher, cfg: Config, s: State, path: Path, now: nat): State
    requires cfg.lim.chunkSize > 0 && DataAt(s.disk, path).Some?
    requires Get(MetaAt(s, path, cfg.localId).clock, cfg.localId) < U64_MAX
  {
    var clock := Ticked(MetaAt(s, path, cfg.localId).clock, cfg.localId);
    s.(tree := Insert(hash, s.tree, path, FileNode(hash, DataAt(s.disk, path).value, cfg.lim.chunkSize)),
       meta := s.meta[path := FileMeta(clock, now, cfg.localId)])
  }

  /** `local_file_deleted`. */
  function LocalDeleted(hash: Hasher, cfg: Config, s: State, path: Path, now: nat): State {
    s.(tree := Remove(hash, s.tree, path), meta := s.meta - {path},
       tombstones := s.tombstones + [Tombstone(path, cfg.localId, MetaAt(s, path, cfg.localId).clock, now)])
  }

  /** The download half of `fetch_and_apply`: the file the received chunks make of the local copy. */
  function FetchedData(cfg: Config, disk: Fs, remote: Remote, path: Path, indices: seq<nat>): Option<Bytes>
    requires remote.lim.chunkSize > 0
  {
    if ShouldExclude(cfg.patterns, path) || DataAt(remote.disk, path) == None then None
    else
      var local := if DataAt(disk, path).Some? then DataAt(disk, path).value else [];
      Patch(cfg.lim, local, Serve(remote.lim, DataAt(remote.disk, path).value, indices))
  }

  /** The other half: write the file, index it, take over the origin's clock and stamp. */
  function Stored(hash: Hasher, cfg: Config, s: State, path: Path, data: Bytes, origin: Origin): State
    requires cfg.lim.chunkSize > 0 && Writable(s.disk, path)
  {
    var m := MetaAt(s, path, origin.peer);
    s.(disk := Write(s.disk, path, data),
       tree := Insert(hash, s.tree, path, FileNode(hash, data, cfg.lim.chunkSize)),
       meta := s.meta[path := FileMeta(Merged(m.clock, origin.clock), origin.timestamp, origin.peer)])
  }

  function Fetched(hash: Hasher, cfg: Config, s: State, remote: Remote, path: Path, indices: seq<nat>,
      origin: Origin): State
    requires cfg.lim.chunkSize > 0 && remote.lim.chunkSize > 0
  {
    var data := FetchedData(cfg, s.disk, remote, path, indices);
    if data.Some? && Writable(s.disk, path) then Stored(hash, cfg, s, path, data.value, origin) else s
  }

  function Verdict(cfg: Config, s: State, c: Change): Resolution {
    var m := MetaAt(s, c.path, cfg.localId);
    Resolve(m.clock, c.clock, m.modified, c.timestamp, c.peer, cfg.localId)
  }

  function IndicesOf(chunks: seq<Chunk.ChunkMeta>): (r: seq<nat>) {
    seq(|chunks|, i requires 0 <= i < |chunks| => chunks[i].index)
  }

  /** `std::fs::copy` of the losing local file; it does not create directories and the index is not told. */
  predicate CanBackUp(fs: Fs, path: Path, backup: Path) {
    && DataAt(fs, path).Some? && Writable(fs, backup)
    && Lookup(fs, backup[..|backup| - 1]).Some?
  }

  function BackedUp(fs: Fs, path: Path, backup: Path): Fs {
    if CanBackUp(fs, path, backup) then Write(fs, backup, DataAt(fs, path).value) else fs
  }

  /** `handle_notification` for a changed file. */
  function ChangeHandled(hash: Hasher, cfg: Config, s: State, remote: Remote, c: Change): State
    requires cfg.lim.chunkSize > 0 && remote.lim.chunkSize > 0
  {
    if c.peer == cfg.localId then s
    else
      var origin := Origin(c.clock, c.timestamp, c.peer);
      match Verdict(cfg, s, c)
      case Accept => Fetched(hash, cfg, s, remote, c.path, IndicesOf(c.chunks), origin)
      case Reject => s
      case Conflict(loser) =>
        var backup := ConflictPath(c.path, loser);
        if loser == cfg.localId then
          Fetched(hash, cfg, s.(disk := BackedUp(s.disk, c.path, backup)), remote, c.path, IndicesOf(c.chunks), origin)
        else Fetched(hash, cfg, s, remote, backup, IndicesOf(c.chunks), origin)
  }

  /** `handle_notification` for a deleted file: the index forgets the path whether or not it can be
      unlinked. */
  function DeleteHandled(hash: Hasher, cfg: Config, s: State, t: Tombstone): State {
    if t.deletedBy == cfg.localId then s
    else
      State(if Unlinkable(s.disk, t.path) then Delete(s.disk, t.path) else s.disk,
            Remove(hash, s.tree, t.path), s.meta - {t.path}, s.tombstones + [t])
  }

  /** `handle_fs_event` for a created or modified path that passed the guards. */
  predicate Announces(cfg: Config, disk: Fs, path: Path) {
    !IsConflictBackup(path) && DataAt(disk, path).Some? && !ShouldExclude(cfg.patterns, path)
  }

  function ChangeOf(hash: Hasher, cfg: Config, s: State, path: Path): Change
    requires cfg.lim.chunkSize > 0 && DataAt(s.disk, path).Some? && path in s.meta
  {
    var chunks := Chunk.Metadata(hash, DataAt(s.disk, path).value, cfg.lim.chunkSize);
    Change(path, Chunk.FileHashOf(hash, chunks), chunks, s.meta[path].clock, s.meta[path].modified, cfg.localId)
  }

  // ---- Reconciliation ----

  function Upto(n: nat): seq<nat> {
    seq(n, i => i)
  }

  /** `fetch_node_recursive`. */
  function NodeFetched(hash: Hasher, cfg: Config, s: State, remote: Remote, path: Path, node: Node, now: nat): State
    requires cfg.lim.chunkSize > 0 && remote.lim.chunkSize > 0
    decreases node, 1, 0
  {
    match node
    case File(_, _, chunks) => Fetched(hash, cfg, s, remote, path, Upto(|chunks|), Origin(map[], now, remote.id))
    case Directory(_, children) => ChildrenFetched(hash, cfg, s, remote, path, node, SortedKeys(children.Keys), now)
  }

  function ChildrenFetched(hash: Hasher, cfg: Config, s: State, remote: Remote, path: Path, node: Node,
      keys: seq<Name>, now: nat): State
    requires cfg.lim.chunkSize > 0 && remote.lim.chunkSize > 0
    requires node.Directory? && forall k :: k in keys ==> k in node.children
    decreases node, 0, |keys|
  {
    if keys == [] then s
    else
      var s' := NodeFetched(hash, cfg, s, remote, path + [keys[0]], node.children[keys[0]], now);
      ChildrenFetched(hash, cfg, s', remote, path, node, keys[1..], now)
  }

  function EntryFetched(hash: Hasher, cfg: Config, s: State, remote: Remote, e: DiffEntry, now: nat): State
    requires cfg.lim.chunkSize > 0 && remote.lim.chunkSize > 0
  {
    match e
    case Added(path, node) => NodeFetched(hash, cfg, s, remote, path, node, now)
    case Modified(path, _, node) => NodeFetched(hash, cfg, s, remote, path, node, now)
    case Removed(_, _) => s
  }

  function EntriesFetched(hash: Hasher, cfg: Config, s: State, remote: Remote, es: seq<DiffEntry>, now: nat): State
    requires cfg.lim.chunkSize > 0 && remote.lim.chunkSize > 0
    decreases es
  {
    if es == [] then s
    else EntriesFetched(hash, cfg, EntryFetched(hash, cfg, s, remote, es[0], now), remote, es[1..], now)
  }

  function Reconciled(hash: Hasher, cfg: Config, s: State, remote: Remote, now: nat): State
    requires cfg.lim.chunkSize > 0 && remote.lim.chunkSize > 0
  {
    if cfg.noPull then s else EntriesFetched(hash, cfg, s, remote, Diff(s.tree, remote.tree, []), now)
  }
}
