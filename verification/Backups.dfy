/** What becomes of the version that loses a conflict. */
module Backups {
  import opened ByteStrings
  import opened Merkle
  import opened Disk
  import opened Clock
  import opened ConflictName
  import opened Replica
  import opened Transfer
  import opened Fetching
  import opened Refinement
  import Chunk

  function BackupOf(c: Change, loser: PeerId): Path {
    ConflictPath(c.path, loser)
  }

  // ---- At the peer that loses ----

  /** The copy is made exactly when a file can be written at the backup path and its folder exists. */
  predicate RoomFor(fs: Fs, backup: Path) {
    backup != [] && Writable(fs, backup) && Lookup(fs, backup[..|backup| - 1]).Some?
  }

  /** Where there is a file already, another one can be copied. */
  lemma FileHasRoom(fs: Fs, backup: Path)
    requires fs.Folder? && backup != [] && DataAt(fs, backup).Some?
    ensures RoomFor(fs, backup)
  {
    FileIsWritable(fs, backup);
    AboveExists(fs, backup, |backup| - 1);
  }

  /** The peer that loses holds its own version under the backup name afterwards if and only if that
      name can be written and its folder exists already; if not, no path but the changed one is
      touched. */
  lemma LoserKeepsIff(hash: Hasher, cfg: Config, s: State, remote: Remote, c: Change)
    requires cfg.lim.chunkSize > 0 && remote.lim.chunkSize > 0 && s.disk.Folder?
    requires c.peer != cfg.localId && Verdict(cfg, s, c) == Conflict(cfg.localId) && DataAt(s.disk, c.path).Some?
    ensures var t, backup := ChangeHandled(hash, cfg, s, remote, c), BackupOf(c, cfg.localId);
      && backup != []
      && (DataAt(t.disk, backup) == DataAt(s.disk, c.path) <==> RoomFor(s.disk, backup))
      && (!RoomFor(s.disk, backup) ==> DataAt(t.disk, backup) == None)
      && forall q :: q != c.path && (q != backup || !RoomFor(s.disk, backup)) ==> DataAt(t.disk, q) == DataAt(s.disk, q)
  {
    var t, backup := ChangeHandled(hash, cfg, s, remote, c), BackupOf(c, cfg.localId);
    var disk := BackedUp(s.disk, c.path, backup);
    ConflictPathIsBackup(c.path, cfg.localId);
    forall q | q != c.path
      ensures DataAt(t.disk, q) ==
        if q == backup && RoomFor(s.disk, backup) then DataAt(s.disk, c.path) else DataAt(s.disk, q)
    {
      FetchElsewhere(hash, cfg, s.(disk := disk), remote, c.path, IndicesOf(c.chunks),
        Origin(c.clock, c.timestamp, c.peer), q);
      if RoomFor(s.disk, backup) {
        WriteData(s.disk, backup, DataAt(s.disk, c.path).value, q);
      }
    }
    if DataAt(s.disk, backup).Some? {
      FileHasRoom(s.disk, backup);
    }
  }

  lemma RoomBeside(fs: Fs, path: Path, backup: Path)
    requires fs.Folder? && DataAt(fs, path).Some? && path != []
    requires |backup| == |path| && backup[..|path| - 1] == path[..|path| - 1]
    requires Lookup(fs, backup).Some? ==> Lookup(fs, backup).value.Regular?
    ensures RoomFor(fs, backup)
  {
    AboveExists(fs, path, |path| - 1);
    BesideFileIsWritable(fs, path, backup);
  }

  /** So the losing version is kept whenever the backup lies beside the original and its name is not
      taken by a folder or a link. */
  lemma LoserKeepsBeside(hash: Hasher, cfg: Config, s: State, remote: Remote, c: Change)
    requires cfg.lim.chunkSize > 0 && remote.lim.chunkSize > 0 && s.disk.Folder?
    requires c.peer != cfg.localId && Verdict(cfg, s, c) == Conflict(cfg.localId) && DataAt(s.disk, c.path).Some?
    requires c.path != [] && NoSlashes(c.path)
    requires DOT in c.path[|c.path| - 1] || forall i :: 0 <= i < |c.path| ==> DOT !in c.path[i]
    requires Lookup(s.disk, BackupOf(c, cfg.localId)).Some? ==> Lookup(s.disk, BackupOf(c, cfg.localId)).value.Regular?
    ensures DataAt(ChangeHandled(hash, cfg, s, remote, c).disk, BackupOf(c, cfg.localId)) == DataAt(s.disk, c.path)
  {
    BackupBesideIff(c.path, cfg.localId);
    RoomBeside(s.disk, c.path, BackupOf(c, cfg.localId));
    LoserKeepsIff(hash, cfg, s, remote, c);
  }

  /** The backup's name depends on path and peer only: a second loss of the same file overwrites the
      version kept at the first. */
  lemma SecondLossOverwrites(hash: Hasher, cfg: Config, s: State, remote: Remote, c: Change)
    requires cfg.lim.chunkSize > 0 && remote.lim.chunkSize > 0 && s.disk.Folder?
    requires c.peer != cfg.localId && Verdict(cfg, s, c) == Conflict(cfg.localId) && DataAt(s.disk, c.path).Some?
    requires DataAt(s.disk, BackupOf(c, cfg.localId)).Some?
    ensures var t, backup := ChangeHandled(hash, cfg, s, remote, c), BackupOf(c, cfg.localId);
      && DataAt(t.disk, backup) == DataAt(s.disk, c.path)
      && forall q :: q != c.path && q != backup ==> DataAt(t.disk, q) == DataAt(s.disk, q)
  {
    ConflictPathIsBackup(c.path, cfg.localId);
    FileHasRoom(s.disk, BackupOf(c, cfg.localId));
    LoserKeepsIff(hash, cfg, s, remote, c);
  }

  // ---- A losing version that is gone ----

  /** "v1.2" */
  const VERSIONED: Name := [118, 49, 46, 50]

  /** "README" */
  const README: Name := [82, 69, 65, 68, 77, 69]

  /** A folder whose only file is v1.2/README. */
  function OneFile(data: Bytes): Fs {
    Folder(map[VERSIONED := Folder(map[README := Regular(data)])])
  }

  lemma OneFileData(data: Bytes, q: Path)
    ensures DataAt(OneFile(data), q) == if q == [VERSIONED, README] then Some(data) else None
  {
    if q != [] && q[0] == VERSIONED {
      var inner := Folder(map[README := Regular(data)]);
      assert Lookup(OneFile(data), q) == Lookup(inner, q[1..]);
      if q[1..] != [] && q[1] == README {
        assert Lookup(inner, q[1..]) == Lookup(Regular(data), q[2..]);
        assert q[2..] == [] ==> q == [VERSIONED, README];
      }
    }
  }

  /** For v1.2/README the tag goes into the folder's name, and there is no such folder. */
  lemma NoRoomInOneFile(data: Bytes, peer: PeerId)
    ensures !RoomFor(OneFile(data), ConflictPath([VERSIONED, README], peer))
  {
    var path: Path := [VERSIONED, README];
    var k, at := BackupChangesOneComponent(path, peer);
    assert VERSIONED[2] == DOT;
    assert DOT in path[0] && DOT !in path[1];
    var backup := ConflictPath(path, peer);
    assert k == 0 && |backup| == 2 && |backup[0]| == |VERSIONED| + 18;
    assert backup[..1][0] == backup[0];
  }

  /** Two peers edit v1.2/README, a file in a folder whose name has a dot, and the other edit is the
      later one. The edit made here is then held at no path at all: the copy aside fails unnoticed, and
      the download overwrites the file. */
  lemma LosingVersionGone(hash: Hasher, cfg: Config, tree: Node, peer: PeerId, was: Bytes, data: Bytes, t0: nat,
      t1: nat)
    returns (s: State, remote: Remote, c: Change)
    requires cfg.lim.chunkSize > 0 && cfg.patterns == [] && peer != cfg.localId && t0 < t1
    requires was != data && |was| <= |data| && Fits(cfg.lim, data)
    ensures s == State(OneFile(was), tree,
      map[[VERSIONED, README] := FileMeta(map[cfg.localId := 1], t0, cfg.localId)], [])
    ensures remote == Remote(OneFile(data), tree, cfg.lim, peer)
    ensures c == Change([VERSIONED, README], c.hash, Chunk.Metadata(hash, data, cfg.lim.chunkSize), map[peer := 1], t1,
      peer)
    ensures var t := ChangeHandled(hash, cfg, s, remote, c);
      DataAt(t.disk, c.path) == Some(data) && forall q :: DataAt(t.disk, q) != Some(was)
  {
    var path: Path := [VERSIONED, README];
    var chunks := Chunk.Metadata(hash, data, cfg.lim.chunkSize);
    s := State(OneFile(was), tree, map[path := FileMeta(map[cfg.localId := 1], t0, cfg.localId)], []);
    remote := Remote(OneFile(data), tree, cfg.lim, peer);
    c := Change(path, Chunk.FileHashOf(hash, chunks), chunks, map[peer := 1], t1, peer);
    OneFileData(was, path);
    OneFileData(data, path);
    FileIsWritable(s.disk, path);
    ConcurrentEdits(cfg, s, c);
    NoRoomInOneFile(was, cfg.localId);
    AdoptionInstallsIff(hash, cfg, s, remote, c);
    LoserKeepsIff(hash, cfg, s, remote, c);
    forall q
      ensures DataAt(ChangeHandled(hash, cfg, s, remote, c).disk, q) != Some(was)
    {
      OneFileData(was, q);
    }
  }

  lemma ConcurrentEdits(cfg: Config, s: State, c: Change)
    requires c.path in s.meta && c.peer != cfg.localId && s.meta[c.path].modified < c.timestamp
    requires s.meta[c.path].clock == map[cfg.localId := 1] && c.clock == map[c.peer := 1]
    ensures Verdict(cfg, s, c) == Conflict(cfg.localId)
  {
    assert cfg.localId in s.meta[c.path].clock && c.peer in c.clock;
  }

  // ---- At the peer that wins ----

  /** The peer that wins asks for a file of the backup's name. If the other side has none, it stays
      exactly as it was; otherwise it holds one afterwards, and if that file is what the losing version's
      announcement listed, it is that file if and only if an older backup here was not longer. */
  lemma WinnerBacksUpIff(hash: Hasher, cfg: Config, s: State, remote: Remote, c: Change)
    requires cfg.lim.chunkSize > 0 && remote.lim == cfg.lim
    requires c.peer != cfg.localId && Verdict(cfg, s, c) == Conflict(c.peer)
    requires var backup := BackupOf(c, c.peer);
      && Writable(s.disk, backup) && !ShouldExclude(cfg.patterns, backup)
      && (DataAt(remote.disk, backup).Some? ==> Fits(cfg.lim, DataAt(remote.disk, backup).value))
    ensures var t, backup := ChangeHandled(hash, cfg, s, remote, c), BackupOf(c, c.peer);
      var theirs, older := DataAt(remote.disk, backup), DataAt(s.disk, backup);
      && (DataAt(t.disk, backup).Some? <==> theirs.Some? || older.Some?)
      && (theirs == None ==> t == s)
      && (theirs.Some? && ListsAllChunks(hash, cfg, theirs.value, c) ==>
            && DataAt(t.disk, backup) == Some(Patched(if older.Some? then older.value else [], theirs.value))
            && (DataAt(t.disk, backup) == theirs <==> older == None || |older.value| <= |theirs.value|))
      && forall q :: q != backup ==> DataAt(t.disk, q) == DataAt(s.disk, q)
  {
    var t, backup := ChangeHandled(hash, cfg, s, remote, c), BackupOf(c, c.peer);
    var indices := IndicesOf(c.chunks);
    var origin := Origin(c.clock, c.timestamp, c.peer);
    forall q | q != backup
      ensures DataAt(t.disk, q) == DataAt(s.disk, q)
    {
      FetchElsewhere(hash, cfg, s, remote, backup, indices, origin, q);
    }
    if DataAt(remote.disk, backup).Some? {
      var data := DataAt(remote.disk, backup).value;
      var older := if DataAt(s.disk, backup).Some? then DataAt(s.disk, backup).value else [];
      FittingTransferSucceeds(cfg.lim, data, older, indices);
      WriteData(s.disk, backup, FetchedData(cfg, s.disk, remote, backup, indices).value, backup);
      if ListsAllChunks(hash, cfg, data, c) {
        FetchInstalls(hash, cfg, s.disk, remote, backup, data, c);
        ReplacedIff(older, data);
      }
    }
  }

  /** Both sides of one conflict: the loser `p` handles the winner's change first, then the winner `q`
      handles the change the loser had announced. If the loser could copy its version aside, the winner
      ends up with it under the backup name if and only if an older backup there was not longer; if not,
      the winner's older backup is all there is. */
  lemma WinnerBacksUpAfterLoser(hash: Hasher, cfgP: Config, p: State, toP: Remote, fromQ: Change,
      cfgQ: Config, q: State, tree: Node, fromP: Change)
    requires cfgP.lim == cfgQ.lim == toP.lim && cfgP.lim.chunkSize > 0 && p.disk.Folder?
    requires fromQ.peer == cfgQ.localId != cfgP.localId == fromP.peer && fromQ.path == fromP.path
    requires Verdict(cfgP, p, fromQ) == Conflict(cfgP.localId) && Verdict(cfgQ, q, fromP) == Conflict(cfgP.localId)
    requires DataAt(p.disk, fromP.path).Some? && Fits(cfgQ.lim, DataAt(p.disk, fromP.path).value)
    requires ListsAllChunks(hash, cfgP, DataAt(p.disk, fromP.path).value, fromP)
    requires Writable(q.disk, BackupOf(fromP, cfgP.localId))
    requires !ShouldExclude(cfgQ.patterns, BackupOf(fromP, cfgP.localId))
    ensures var backup, lost := BackupOf(fromP, cfgP.localId), DataAt(p.disk, fromP.path);
      var toQ := Remote(ChangeHandled(hash, cfgP, p, toP, fromQ).disk, tree, cfgQ.lim, cfgP.localId);
      var after, older := DataAt(ChangeHandled(hash, cfgQ, q, toQ, fromP).disk, backup), DataAt(q.disk, backup);
      if RoomFor(p.disk, backup) then after == lost <==> older == None || |older.value| <= |lost.value|
      else after == older
  {
    var toQ := Remote(ChangeHandled(hash, cfgP, p, toP, fromQ).disk, tree, cfgQ.lim, cfgP.localId);
    LoserKeepsIff(hash, cfgP, p, toP, fromQ);
    WinnerBacksUpIff(hash, cfgQ, q, toQ, fromP);
  }
}
