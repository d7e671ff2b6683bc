/** The redundant parts of a peer's state agree with each other and with the disk, over whole runs. */
module IndexAgreement {
  import opened ByteStrings
  import opened Merkle
  import opened Disk
  import opened Clock
  import opened ConflictName
  import opened Replica
  import opened Fetching
  import MerkleCount

  /** The incrementally kept tree is what a scan of the disk would build now. */
  ghost predicate TreeAgrees(hash: Hasher, cfg: Config, s: State)
    requires cfg.lim.chunkSize > 0
  {
    s.disk.Folder? && s.tree == Scan(hash, cfg.Scanning(), s.disk, [])
  }

  /** There is metadata for exactly the files of the tree. */
  ghost predicate MetaAgrees(s: State) {
    s.meta.Keys == FilePaths(s.tree)
  }

  // ---- Exactly when tree and metadata stay together ----

  ghost predicate NoFilesBelow(tree: Node, path: Path) {
    forall q :: q in FilePaths(tree) && path <= q ==> q == path
  }

  lemma InsertedFiles(hash: Hasher, tree: Node, path: Path, file: Node, q: Path)
    requires Permitted(tree, path) && file.File?
    ensures q in FilePaths(Insert(hash, tree, path, file)) <==>
      q == path || (q in FilePaths(tree) && !(path <= q))
  {
    var after := Insert(hash, tree, path, file);
    FilePathsFind(after, q);
    FilePathsFind(tree, q);
    InsertFind(hash, tree, path, file, q);
    PermittedIff(tree, path);
    if path <= q {
      assert q == path + q[|path|..];
    } else if q <= path {
      assert q == path[..|q|];
    }
  }

  /** Indexing a file adds exactly its path to the tree's files if and only if no proper prefix of
      it is a file and no file lies below it. */
  lemma IndexChangeIff(hash: Hasher, tree: Node, path: Path, file: Node)
    requires Consistent(hash, tree) && tree.Directory? && file.File?
    ensures FilePaths(Insert(hash, tree, path, file)) == FilePaths(tree) + {path} <==>
      Permitted(tree, path) && NoFilesBelow(tree, path)
  {
    var after := FilePaths(Insert(hash, tree, path, file));
    if Permitted(tree, path) {
      forall q
        ensures q in after <==> q == path || (q in FilePaths(tree) && !(path <= q))
      {
        InsertedFiles(hash, tree, path, file, q);
      }
      if !NoFilesBelow(tree, path) {
        var q :| q in FilePaths(tree) && path <= q && q != path;
        assert q !in after;
      }
    } else {
      InsertNoOp(hash, tree, path, file);
      BlockedPathIsNoFile(tree, path);
    }
  }

  lemma BlockedPathIsNoFile(tree: Node, path: Path)
    requires tree.Directory? && !Permitted(tree, path)
    ensures path !in FilePaths(tree)
  {
    FilePathsFind(tree, path);
    PermittedIff(tree, path);
    if path != [] {
      var i :| 0 <= i < |path| && IsFile(Find(tree, path[..i]));
      assert path == path[..i] + path[i..];
      FindAppend(tree, path[..i], path[i..]);
    }
  }

  /** Forgetting a path removes exactly that path from the tree's files if and only if no other
      file lies below it. */
  lemma IndexRemovalIff(hash: Hasher, tree: Node, path: Path)
    requires path != []
    ensures FilePaths(Remove(hash, tree, path)) == FilePaths(tree) - {path} <==> NoFilesBelow(tree, path)
  {
    var after := FilePaths(Remove(hash, tree, path));
    forall q
      ensures q in after <==> q in FilePaths(tree) && !(path <= q)
    {
      RemovedFiles(hash, tree, path, q);
    }
    if !NoFilesBelow(tree, path) {
      var q :| q in FilePaths(tree) && path <= q && q != path;
      assert q !in after;
    }
  }

  lemma RemovedFiles(hash: Hasher, tree: Node, path: Path, q: Path)
    requires path != []
    ensures q in FilePaths(Remove(hash, tree, path)) <==> q in FilePaths(tree) && !(path <= q)
  {
    FilePathsFind(Remove(hash, tree, path), q);
    FilePathsFind(tree, q);
    if Removable(tree, path) {
      RemoveFind(hash, tree, path, q);
      if q <= path && q != path {
        assert path == q + path[|q|..];
        FindAppend(tree, q, path[|q|..]);
      }
    } else if path <= q {
      assert q == path + q[|path|..];
      FindAppend(tree, path, q[|path|..]);
    }
  }

  lemma NotDirNoFilesBelow(tree: Node, path: Path)
    requires !IsDir(Find(tree, path))
    ensures NoFilesBelow(tree, path)
  {
    forall q | q in FilePaths(tree) && path <= q
      ensures q == path
    {
      FilePathsFind(tree, q);
      assert q == path + q[|path|..];
      FindAppend(tree, path, q[|path|..]);
    }
  }

  // ---- What stays true whatever is on disk beside the indexed files ----

  /** Every indexed file is a file on disk, every indexed directory a folder. */
  ghost predicate TreeOnDisk(hash: Hasher, s: State) {
    && s.disk.Folder? && s.tree.Directory? && Consistent(hash, s.tree)
    && forall p :: OnDiskAt(s.tree, s.disk, p)
  }

  ghost predicate OnDiskAt(tree: Node, disk: Fs, p: Path) {
    && (IsFile(Find(tree, p)) ==> DataAt(disk, p).Some?)
    && (IsDir(Find(tree, p)) ==> IsFolder(Lookup(disk, p)))
  }

  /** The index agrees with itself and shows nothing that is not on disk; if `exact`, the tree also
      shows all of it. */
  ghost predicate Indexes(hash: Hasher, cfg: Config, s: State, exact: bool)
    requires cfg.lim.chunkSize > 0
  {
    TreeOnDisk(hash, s) && MetaAgrees(s) && (exact ==> TreeAgrees(hash, cfg, s))
  }

  lemma AgreesOnDisk(hash: Hasher, cfg: Config, s: State)
    requires cfg.lim.chunkSize > 0 && TreeAgrees(hash, cfg, s)
    ensures TreeOnDisk(hash, s)
  {
    ScanConsistent(hash, cfg.Scanning(), s.disk, []);
    forall p
      ensures OnDiskAt(s.tree, s.disk, p)
    {
      if p != [] {
        ScanFind(hash, cfg.Scanning(), s.disk, [], p);
      }
    }
  }

  /** Where a file can be written, indexing it crosses no file and no directory. */
  lemma WritableIndexed(hash: Hasher, s: State, path: Path)
    requires TreeOnDisk(hash, s) && Writable(s.disk, path)
    ensures Permitted(s.tree, path) && NoFilesBelow(s.tree, path)
  {
    assert OnDiskAt(s.tree, s.disk, path);
    WritableAbove(s.disk, path, path);
    NotDirNoFilesBelow(s.tree, path);
    forall i | 0 <= i < |path|
      ensures !IsFile(Find(s.tree, path[..i]))
    {
      assert OnDiskAt(s.tree, s.disk, path[..i]);
      WritableAbove(s.disk, path, path[..i]);
    }
    PermittedIff(s.tree, path);
  }

  /** A write the index is told about. */
  lemma IndexedWrite(hash: Hasher, s: State, path: Path, data: Bytes, file: Node)
    requires TreeOnDisk(hash, s) && Writable(s.disk, path) && file.File?
    ensures var t := s.(disk := Write(s.disk, path, data), tree := Insert(hash, s.tree, path, file));
      TreeOnDisk(hash, t) && FilePaths(t.tree) == FilePaths(s.tree) + {path}
  {
    WritableIndexed(hash, s, path);
    IndexChangeIff(hash, s.tree, path, file);
    InsertConsistent(hash, s.tree, path, file);
    var tree, disk := Insert(hash, s.tree, path, file), Write(s.disk, path, data);
    forall p
      ensures OnDiskAt(tree, disk, p)
    {
      IndexedWriteAt(hash, s, path, data, file, p);
    }
  }

  lemma IndexedWriteAt(hash: Hasher, s: State, path: Path, data: Bytes, file: Node, p: Path)
    requires TreeOnDisk(hash, s) && Writable(s.disk, path) && file.File? && Permitted(s.tree, path)
    ensures OnDiskAt(Insert(hash, s.tree, path, file), Write(s.disk, path, data), p)
  {
    InsertFind(hash, s.tree, path, file, p);
    WriteData(s.disk, path, data, p);
    if path <= p {
      assert p == path + p[|path|..];
    } else if p <= path {
      WriteMakesFolders(s.disk, path, data, p);
    } else {
      UnseenWriteAt(s, path, data, p);
    }
  }

  lemma UnseenWriteAt(s: State, path: Path, data: Bytes, p: Path)
    requires Writable(s.disk, path) && OnDiskAt(s.tree, s.disk, p)
    ensures OnDiskAt(s.tree, Write(s.disk, path, data), p)
  {
    WriteData(s.disk, path, data, p);
    if IsFolder(Lookup(s.disk, p)) {
      WriteKeepsFolder(s.disk, path, data, p);
    }
  }

  /** A write the index is not told about. */
  lemma UnseenWrite(hash: Hasher, s: State, path: Path, data: Bytes)
    requires TreeOnDisk(hash, s) && Writable(s.disk, path)
    ensures TreeOnDisk(hash, s.(disk := Write(s.disk, path, data)))
  {
    forall p
      ensures OnDiskAt(s.tree, Write(s.disk, path, data), p)
    {
      UnseenWriteAt(s, path, data, p);
    }
  }

  /** Forgetting a path that is no folder on disk, unlinked or not. */
  lemma IndexedDelete(hash: Hasher, s: State, path: Path, unlink: bool)
    requires TreeOnDisk(hash, s) && path != [] && !IsFolder(Lookup(s.disk, path))
    requires unlink ==> Lookup(s.disk, path).Some?
    ensures var t := s.(disk := if unlink then Delete(s.disk, path) else s.disk, tree := Remove(hash, s.tree, path));
      TreeOnDisk(hash, t) && FilePaths(t.tree) == FilePaths(s.tree) - {path}
  {
    assert OnDiskAt(s.tree, s.disk, path);
    NotDirNoFilesBelow(s.tree, path);
    IndexRemovalIff(hash, s.tree, path);
    RemoveConsistent(hash, s.tree, path);
    var tree, disk := Remove(hash, s.tree, path), if unlink then Delete(s.disk, path) else s.disk;
    forall p
      ensures OnDiskAt(tree, disk, p)
    {
      RemovedAt(hash, s.tree, path, p);
      assert OnDiskAt(s.tree, s.disk, p);
      if unlink && !(path <= p) {
        DeleteKeeps(s.disk, path, p);
      }
    }
  }

  lemma RemovedAt(hash: Hasher, tree: Node, path: Path, p: Path)
    requires path != []
    ensures var after := Find(Remove(hash, tree, path), p);
      if path <= p then after == None
      else (IsFile(after) ==> IsFile(Find(tree, p))) && (IsDir(after) ==> IsDir(Find(tree, p)))
  {
    if Removable(tree, path) {
      RemoveFind(hash, tree, path, p);
      if p <= path && p != path {
        assert path == p + path[|p|..];
        FindAppend(tree, p, path[|p|..]);
      }
    } else if path <= p {
      assert p == path + p[|path|..];
      FindAppend(tree, path, p[|path|..]);
    }
  }

  // ---- Single steps ----

  lemma WriteAgrees(hash: Hasher, cfg: Config, s: State, path: Path, data: Bytes)
    requires cfg.lim.chunkSize > 0 && TreeAgrees(hash, cfg, s)
    requires Writable(s.disk, path) && !ShouldExclude(cfg.patterns, path)
    ensures Insert(hash, s.tree, path, FileNode(hash, data, cfg.lim.chunkSize))
         == Scan(hash, cfg.Scanning(), Write(s.disk, path, data), [])
  {
    assert [] + path == path;
    ScanWrite(hash, cfg.Scanning(), s.disk, [], path, data);
  }

  lemma StoreKept(hash: Hasher, cfg: Config, s: State, path: Path, data: Bytes, exact: bool)
    requires cfg.lim.chunkSize > 0 && Indexes(hash, cfg, s, exact)
    requires Writable(s.disk, path) && !ShouldExclude(cfg.patterns, path)
    ensures var t := s.(disk := Write(s.disk, path, data),
                        tree := Insert(hash, s.tree, path, FileNode(hash, data, cfg.lim.chunkSize)));
      TreeOnDisk(hash, t) && (exact ==> TreeAgrees(hash, cfg, t)) && FilePaths(t.tree) == FilePaths(s.tree) + {path}
  {
    IndexedWrite(hash, s, path, data, FileNode(hash, data, cfg.lim.chunkSize));
    if exact {
      WriteAgrees(hash, cfg, s, path, data);
    }
  }

  /** A fetch keeps tree and disk in agreement. */
  lemma FetchAgrees(hash: Hasher, cfg: Config, s: State, remote: Remote, path: Path, indices: seq<nat>, origin: Origin)
    requires cfg.lim.chunkSize > 0 && remote.lim.chunkSize > 0 && TreeAgrees(hash, cfg, s)
    ensures TreeAgrees(hash, cfg, Fetched(hash, cfg, s, remote, path, indices, origin))
  {
    if Stores(cfg, s.disk, remote, path, indices) {
      WriteAgrees(hash, cfg, s, path, FetchedData(cfg, s.disk, remote, path, indices).value);
    }
  }

  /** A fetch keeps the index in agreement, whatever comes of it. */
  lemma FetchKept(hash: Hasher, cfg: Config, s: State, remote: Remote, path: Path, indices: seq<nat>, origin: Origin,
      exact: bool)
    requires cfg.lim.chunkSize > 0 && remote.lim.chunkSize > 0 && Indexes(hash, cfg, s, exact)
    ensures Indexes(hash, cfg, Fetched(hash, cfg, s, remote, path, indices, origin), exact)
  {
    var data := FetchedData(cfg, s.disk, remote, path, indices);
    if data.Some? && Writable(s.disk, path) {
      StoreKept(hash, cfg, s, path, data.value, exact);
    }
  }

  lemma {:induction false} ItemsFetchKept(hash: Hasher, cfg: Config, s: State, remote: Remote, items: seq<Item>,
      now: nat, exact: bool)
    requires cfg.lim.chunkSize > 0 && remote.lim.chunkSize > 0 && Indexes(hash, cfg, s, exact)
    ensures Indexes(hash, cfg, ItemsFetched(hash, cfg, s, remote, items, now), exact)
    decreases items
  {
    if items != [] {
      var it := items[0];
      FetchKept(hash, cfg, s, remote, it.path, Upto(it.chunks), Origin(map[], now, remote.id), exact);
      ItemsFetchKept(hash, cfg, ItemFetched(hash, cfg, s, remote, it, now), remote, items[1..], now, exact);
    }
  }

  lemma DeleteAgrees(hash: Hasher, cfg: Config, s: State, path: Path)
    requires cfg.lim.chunkSize > 0 && TreeAgrees(hash, cfg, s) && path != []
    ensures Lookup(s.disk, path).Some? ==>
      Remove(hash, s.tree, path) == Scan(hash, cfg.Scanning(), Delete(s.disk, path), [])
    ensures Lookup(s.disk, path) == None || Lookup(s.disk, path).value.Symlink? ==> Remove(hash, s.tree, path) == s.tree
  {
    ScanFind(hash, cfg.Scanning(), s.disk, [], path);
    if Lookup(s.disk, path).Some? {
      ScanDelete(hash, cfg.Scanning(), s.disk, [], path);
    }
  }

  /** A remote delete keeps the tree in agreement with the disk exactly when its path is not an
      indexed folder: folders cannot be unlinked, but the tree forgets them. */
  lemma RemoteDeleteAgreesIff(hash: Hasher, cfg: Config, s: State, t: Tombstone)
    requires cfg.lim.chunkSize > 0 && TreeAgrees(hash, cfg, s) && t.deletedBy != cfg.localId && t.path != []
    ensures TreeAgrees(hash, cfg, DeleteHandled(hash, cfg, s, t)) <==> !IsDir(Find(s.tree, t.path))
  {
    ScanFind(hash, cfg.Scanning(), s.disk, [], t.path);
    DeleteAgrees(hash, cfg, s, t.path);
    if IsDir(Find(s.tree, t.path)) {
      RemoveFind(hash, s.tree, t.path, t.path);
    }
  }

  lemma DeleteKept(hash: Hasher, cfg: Config, s: State, path: Path, unlink: bool, exact: bool)
    requires cfg.lim.chunkSize > 0 && Indexes(hash, cfg, s, exact) && path != [] && !IsFolder(Lookup(s.disk, path))
    requires unlink ==> Lookup(s.disk, path).Some?
    requires !unlink && Lookup(s.disk, path).Some? ==> Lookup(s.disk, path).value.Symlink?
    ensures var t := s.(disk := if unlink then Delete(s.disk, path) else s.disk, tree := Remove(hash, s.tree, path));
      TreeOnDisk(hash, t) && (exact ==> TreeAgrees(hash, cfg, t)) && FilePaths(t.tree) == FilePaths(s.tree) - {path}
  {
    IndexedDelete(hash, s, path, unlink);
    if exact {
      DeleteAgrees(hash, cfg, s, path);
    }
  }

  // ---- Events that are dropped ----

  ghost predicate ShownAlready(hash: Hasher, cfg: Config, s: State, path: Path, data: Bytes)
    requires cfg.lim.chunkSize > 0
  {
    if ShouldExclude(cfg.patterns, path) then NoNewFolders(cfg.Scanning(), s.disk, [], path)
    else Find(s.tree, path) == Some(FileNode(hash, data, cfg.lim.chunkSize))
  }

  /** A dropped write leaves the tree in agreement exactly when the tree shows that content already,
      or the path is excluded and no visible folder had to be made for it. */
  lemma DroppedWriteAgreesIff(hash: Hasher, cfg: Config, s: State, path: Path, data: Bytes)
    requires cfg.lim.chunkSize > 0 && TreeAgrees(hash, cfg, s) && Writable(s.disk, path)
    ensures TreeAgrees(hash, cfg, s.(disk := Write(s.disk, path, data))) <==> ShownAlready(hash, cfg, s, path, data)
  {
    WriteUnnoticedIff(hash, cfg.Scanning(), s.disk, path, data);
  }

  /** A dropped delete leaves the tree in agreement exactly when the tree does not show the path. */
  lemma DroppedDeleteAgreesIff(hash: Hasher, cfg: Config, s: State, path: Path)
    requires cfg.lim.chunkSize > 0 && TreeAgrees(hash, cfg, s) && path != [] && Lookup(s.disk, path).Some?
    ensures TreeAgrees(hash, cfg, s.(disk := Delete(s.disk, path))) <==> Find(s.tree, path) == None
  {
    ScanDelete(hash, cfg.Scanning(), s.disk, [], path);
    if Find(s.tree, path).Some? {
      RemoveFind(hash, s.tree, path, path);
    }
  }

  /** It leaves everything the tree shows on disk under the same condition. */
  lemma DroppedDeleteOnDiskIff(hash: Hasher, s: State, path: Path)
    requires TreeOnDisk(hash, s) && path != [] && Lookup(s.disk, path).Some?
    ensures TreeOnDisk(hash, s.(disk := Delete(s.disk, path))) <==> Find(s.tree, path) == None
  {
    var disk := Delete(s.disk, path);
    if Find(s.tree, path).Some? {
      DeleteGone(s.disk, path, path);
      assert !OnDiskAt(s.tree, disk, path);
    } else {
      forall p
        ensures OnDiskAt(s.tree, disk, p)
      {
        assert OnDiskAt(s.tree, s.disk, p);
        if path <= p {
          assert p == path + p[|path|..];
          FindAppend(s.tree, path, p[|path|..]);
        } else {
          DeleteKeeps(s.disk, path, p);
        }
      }
    }
  }

  // ---- Conflict backups are not indexed ----

  /** This notification makes the peer copy its own version aside. */
  predicate MakesBackup(cfg: Config, s: State, c: Change) {
    && c.peer != cfg.localId && Verdict(cfg, s, c) == Conflict(cfg.localId)
    && CanBackUp(s.disk, c.path, ConflictPath(c.path, cfg.localId))
  }

  /** No backup is made, or the tree shows the losing version under the backup's name anyway. */
  ghost predicate BackupShown(hash: Hasher, cfg: Config, s: State, c: Change)
    requires cfg.lim.chunkSize > 0
  {
    MakesBackup(cfg, s, c) ==>
      ShownAlready(hash, cfg, s, ConflictPath(c.path, cfg.localId), DataAt(s.disk, c.path).value)
  }

  lemma BackupKept(hash: Hasher, cfg: Config, s: State, path: Path, backup: Path, exact: bool)
    requires cfg.lim.chunkSize > 0 && Indexes(hash, cfg, s, exact)
    requires exact && CanBackUp(s.disk, path, backup) ==>
      ShownAlready(hash, cfg, s, backup, DataAt(s.disk, path).value)
    ensures Indexes(hash, cfg, s.(disk := BackedUp(s.disk, path, backup)), exact)
  {
    if CanBackUp(s.disk, path, backup) {
      UnseenWrite(hash, s, backup, DataAt(s.disk, path).value);
      if exact {
        DroppedWriteAgreesIff(hash, cfg, s, backup, DataAt(s.disk, path).value);
      }
    }
  }

  /** Handling a change keeps the index in agreement with itself, and unless it makes a backup the tree
      does not show, with the disk. */
  lemma ChangeKept(hash: Hasher, cfg: Config, s: State, remote: Remote, c: Change, exact: bool)
    requires cfg.lim.chunkSize > 0 && remote.lim.chunkSize > 0 && Indexes(hash, cfg, s, exact)
    requires exact ==> BackupShown(hash, cfg, s, c)
    ensures Indexes(hash, cfg, ChangeHandled(hash, cfg, s, remote, c), exact)
  {
    if c.peer != cfg.localId {
      var origin := Origin(c.clock, c.timestamp, c.peer);
      var indices := IndicesOf(c.chunks);
      match Verdict(cfg, s, c)
      case Accept => FetchKept(hash, cfg, s, remote, c.path, indices, origin, exact);
      case Reject =>
      case Conflict(loser) =>
        var backup := ConflictPath(c.path, loser);
        if loser == cfg.localId {
          BackupKept(hash, cfg, s, c.path, backup, exact);
          FetchKept(hash, cfg, s.(disk := BackedUp(s.disk, c.path, backup)), remote, c.path, indices, origin, exact);
        } else {
          FetchKept(hash, cfg, s, remote, backup, indices, origin, exact);
        }
    }
  }

  /** A fetch does not repair a tree that disagrees elsewhere: if the tree shows the file that is at the
      path, a disagreement before is one after. */
  lemma FetchKeepsDifference(hash: Hasher, cfg: Config, s: State, remote: Remote, path: Path, indices: seq<nat>,
      origin: Origin)
    requires cfg.lim.chunkSize > 0 && remote.lim.chunkSize > 0 && s.disk.Folder? && Consistent(hash, s.tree)
    requires !TreeAgrees(hash, cfg, s) && DataAt(s.disk, path).Some?
    requires !ShouldExclude(cfg.patterns, path) ==>
      Find(s.tree, path) == Some(FileNode(hash, DataAt(s.disk, path).value, cfg.lim.chunkSize))
    ensures !TreeAgrees(hash, cfg, Fetched(hash, cfg, s, remote, path, indices, origin))
  {
    if Stores(cfg, s.disk, remote, path, indices) {
      var data := FetchedData(cfg, s.disk, remote, path, indices).value;
      var was, file := FileNode(hash, DataAt(s.disk, path).value, cfg.lim.chunkSize),
        FileNode(hash, data, cfg.lim.chunkSize);
      ScanFile(hash, cfg.Scanning(), s.disk, path);
      ScanConsistent(hash, cfg.Scanning(), s.disk, []);
      InsertKeepsDifference(hash, s.tree, Scan(hash, cfg.Scanning(), s.disk, []), path, was, file);
      assert [] + path == path;
      ScanWrite(hash, cfg.Scanning(), s.disk, [], path, data);
    }
  }

  lemma BackupDisagrees(hash: Hasher, cfg: Config, s: State, remote: Remote, path: Path, backup: Path,
      indices: seq<nat>, origin: Origin)
    requires cfg.lim.chunkSize > 0 && remote.lim.chunkSize > 0 && TreeAgrees(hash, cfg, s) && backup != path
    requires CanBackUp(s.disk, path, backup) && !ShownAlready(hash, cfg, s, backup, DataAt(s.disk, path).value)
    ensures var s1 := s.(disk := BackedUp(s.disk, path, backup));
      !TreeAgrees(hash, cfg, Fetched(hash, cfg, s1, remote, path, indices, origin))
  {
    var data := DataAt(s.disk, path).value;
    DroppedWriteAgreesIff(hash, cfg, s, backup, data);
    WriteData(s.disk, backup, data, path);
    ScanFile(hash, cfg.Scanning(), s.disk, path);
    ScanConsistent(hash, cfg.Scanning(), s.disk, []);
    FetchKeepsDifference(hash, cfg, s.(disk := BackedUp(s.disk, path, backup)), remote, path, indices, origin);
  }

  /** Handling a change keeps tree and disk in agreement if and only if it makes no backup, or one that
      the tree shows anyway: the copy aside is never indexed, be its name new or not. */
  lemma ChangeAgreesIff(hash: Hasher, cfg: Config, s: State, remote: Remote, c: Change)
    requires cfg.lim.chunkSize > 0 && remote.lim.chunkSize > 0 && TreeAgrees(hash, cfg, s)
    ensures TreeAgrees(hash, cfg, ChangeHandled(hash, cfg, s, remote, c)) <==> BackupShown(hash, cfg, s, c)
  {
    var backup, origin := ConflictPath(c.path, cfg.localId), Origin(c.clock, c.timestamp, c.peer);
    var indices := IndicesOf(c.chunks);
    if MakesBackup(cfg, s, c) {
      ConflictPathIsBackup(c.path, cfg.localId);
      if BackupShown(hash, cfg, s, c) {
        DroppedWriteAgreesIff(hash, cfg, s, backup, DataAt(s.disk, c.path).value);
        FetchAgrees(hash, cfg, s.(disk := BackedUp(s.disk, c.path, backup)), remote, c.path, indices, origin);
      } else {
        BackupDisagrees(hash, cfg, s, remote, c.path, backup, indices, origin);
      }
    } else {
      FetchAgrees(hash, cfg, s, remote, c.path, indices, origin);
      if Verdict(cfg, s, c).Conflict? {
        FetchAgrees(hash, cfg, s, remote, ConflictPath(c.path, Verdict(cfg, s, c).loser), indices, origin);
      }
    }
  }

  /** A backup keeps the losing version on disk, but if its name is new the tree does not know it. */
  lemma BackupIsNotIndexed(hash: Hasher, cfg: Config, s: State, remote: Remote, c: Change)
    requires cfg.lim.chunkSize > 0 && remote.lim.chunkSize > 0 && TreeAgrees(hash, cfg, s)
    requires MakesBackup(cfg, s, c)
    requires var backup := ConflictPath(c.path, cfg.localId);
      Lookup(s.disk, backup) == None && !ShouldExclude(cfg.patterns, backup)
    ensures var t := ChangeHandled(hash, cfg, s, remote, c);
      var backup := ConflictPath(c.path, cfg.localId);
      DataAt(t.disk, backup) == DataAt(s.disk, c.path) && !TreeAgrees(hash, cfg, t)
  {
    var backup := ConflictPath(c.path, cfg.localId);
    var s1 := s.(disk := BackedUp(s.disk, c.path, backup));
    ConflictPathIsBackup(c.path, cfg.localId);
    WriteData(s.disk, backup, DataAt(s.disk, c.path).value, backup);
    FetchElsewhere(hash, cfg, s1, remote, c.path, IndicesOf(c.chunks), Origin(c.clock, c.timestamp, c.peer), backup);
    ScanFind(hash, cfg.Scanning(), s.disk, [], backup);
    ChangeAgreesIff(hash, cfg, s, remote, c);
  }

  // ---- Whole runs ----

  /** `UserWroteUnseen` is a write whose event is dropped: it comes too soon after another one or
      after a download of the same path, or it names an excluded file or a conflict backup.
      `UserDeletedUnseen` is a delete whose event is dropped: it comes too soon after a download. */
  datatype Act =
    | UserWrote(path: Path, data: Bytes, now: nat)
    | UserWroteUnseen(path: Path, data: Bytes)
    | UserDeleted(path: Path, now: nat)
    | UserDeletedUnseen(path: Path)
    | Notified(remote: Remote, change: Change)
    | DeleteNotified(tombstone: Tombstone)
    | Pulled(remote: Remote, now: nat)

  /** Acts that name files; changes may be lost, won or come to nothing. */
  predicate NamesFiles(cfg: Config, s: State, act: Act) {
    match act
    case UserWrote(path, _, _) =>
      Writable(s.disk, path) && !ShouldExclude(cfg.patterns, path) && !IsConflictBackup(path)
      && Get(MetaAt(s, path, cfg.localId).clock, cfg.localId) < U64_MAX
    case UserWroteUnseen(path, _) => Writable(s.disk, path)
    case UserDeleted(path, _) => path != [] && Lookup(s.disk, path).Some? && !Lookup(s.disk, path).value.Folder?
    case UserDeletedUnseen(path) => path != [] && Lookup(s.disk, path).Some?
    case Notified(remote, _) => remote.lim.chunkSize > 0
    case DeleteNotified(t) => t.path != [] && !IsFolder(Lookup(s.disk, t.path))
    case Pulled(remote, _) => remote.lim.chunkSize > 0
  }

  /** What is asked of the acts of a run: nothing; that no delete of anything the tree shows is dropped;
      or moreover that nothing comes to be on disk that the tree does not show. */
  datatype Care = AnyAct | ShownDeletesSeen | NothingUnshown

  ghost predicate Allows(hash: Hasher, cfg: Config, s: State, act: Act, care: Care)
    requires cfg.lim.chunkSize > 0
  {
    match act
    case UserDeletedUnseen(path) => care != AnyAct ==> Find(s.tree, path) == None
    case UserWroteUnseen(path, data) => care == NothingUnshown ==> ShownAlready(hash, cfg, s, path, data)
    case Notified(_, c) => care == NothingUnshown ==> BackupShown(hash, cfg, s, c)
    case _ => true
  }

  lemma WrittenData(cfg: Config, s: State, act: Act)
    requires act.UserWrote? && NamesFiles(cfg, s, act)
    ensures DataAt(Write(s.disk, act.path, act.data), act.path) == Some(act.data)
  {
    WriteData(s.disk, act.path, act.data, act.path);
  }

  function AfterAct(hash: Hasher, cfg: Config, s: State, act: Act): State
    requires cfg.lim.chunkSize > 0 && NamesFiles(cfg, s, act)
  {
    match act
    case UserWrote(path, data, now) =>
      WrittenData(cfg, s, act);
      LocalChanged(hash, cfg, s.(disk := Write(s.disk, path, data)), path, now)
    case UserWroteUnseen(path, data) => s.(disk := Write(s.disk, path, data))
    case UserDeleted(path, now) => LocalDeleted(hash, cfg, s.(disk := Delete(s.disk, path)), path, now)
    case UserDeletedUnseen(path) => s.(disk := Delete(s.disk, path))
    case Notified(remote, c) => ChangeHandled(hash, cfg, s, remote, c)
    case DeleteNotified(t) => DeleteHandled(hash, cfg, s, t)
    case Pulled(remote, now) => Reconciled(hash, cfg, s, remote, now)
  }

  /** A run of acts that name files and that `care` allows. */
  ghost predicate IsActRun(hash: Hasher, cfg: Config, s: State, acts: seq<Act>, care: Care)
    requires cfg.lim.chunkSize > 0
    decreases acts
  {
    acts == []
    || (NamesFiles(cfg, s, acts[0]) && Allows(hash, cfg, s, acts[0], care)
        && IsActRun(hash, cfg, AfterAct(hash, cfg, s, acts[0]), acts[1..], care))
  }

  ghost function RunOf(hash: Hasher, cfg: Config, s: State, acts: seq<Act>, care: Care): State
    requires cfg.lim.chunkSize > 0 && IsActRun(hash, cfg, s, acts, care)
    decreases acts
  {
    if acts == [] then s else RunOf(hash, cfg, AfterAct(hash, cfg, s, acts[0]), acts[1..], care)
  }

  ghost predicate IndexesWith(hash: Hasher, cfg: Config, s: State, care: Care)
    requires cfg.lim.chunkSize > 0
  {
    care != AnyAct && Indexes(hash, cfg, s, care == NothingUnshown)
  }

  lemma UserActKept(hash: Hasher, cfg: Config, s: State, act: Act, care: Care)
    requires cfg.lim.chunkSize > 0 && NamesFiles(cfg, s, act) && IndexesWith(hash, cfg, s, care)
    requires act.UserWrote? || act.UserDeleted?
    ensures IndexesWith(hash, cfg, AfterAct(hash, cfg, s, act), care)
  {
    match act
    case UserWrote(path, data, now) =>
      WrittenData(cfg, s, act);
      StoreKept(hash, cfg, s, path, data, care == NothingUnshown);
    case UserDeleted(path, now) =>
      DeleteKept(hash, cfg, s, path, true, care == NothingUnshown);
  }

  lemma UnseenActKept(hash: Hasher, cfg: Config, s: State, act: Act, care: Care)
    requires cfg.lim.chunkSize > 0 && NamesFiles(cfg, s, act) && IndexesWith(hash, cfg, s, care)
    requires (act.UserWroteUnseen? || act.UserDeletedUnseen?) && Allows(hash, cfg, s, act, care)
    ensures IndexesWith(hash, cfg, AfterAct(hash, cfg, s, act), care)
  {
    match act
    case UserWroteUnseen(path, data) =>
      UnseenWrite(hash, s, path, data);
      if care == NothingUnshown {
        DroppedWriteAgreesIff(hash, cfg, s, path, data);
      }
    case UserDeletedUnseen(path) =>
      DroppedDeleteOnDiskIff(hash, s, path);
      if care == NothingUnshown {
        DroppedDeleteAgreesIff(hash, cfg, s, path);
      }
  }

  lemma ActKept(hash: Hasher, cfg: Config, s: State, act: Act, care: Care)
    requires cfg.lim.chunkSize > 0 && NamesFiles(cfg, s, act) && IndexesWith(hash, cfg, s, care)
    requires Allows(hash, cfg, s, act, care)
    ensures IndexesWith(hash, cfg, AfterAct(hash, cfg, s, act), care)
  {
    match act
    case Notified(remote, c) =>
      ChangeKept(hash, cfg, s, remote, c, care == NothingUnshown);
    case DeleteNotified(t) =>
      DeleteKept(hash, cfg, s, t.path, Unlinkable(s.disk, t.path), care == NothingUnshown);
    case Pulled(remote, now) =>
      PullIsItems(hash, cfg, s, remote, now);
      ItemsFetchKept(hash, cfg, s, remote, PullItems(cfg, s.tree, remote.tree), now, care == NothingUnshown);
    case _ =>
      if act.UserWrote? || act.UserDeleted? {
        UserActKept(hash, cfg, s, act, care);
      } else {
        UnseenActKept(hash, cfg, s, act, care);
      }
  }

  lemma {:induction false} RunKept(hash: Hasher, cfg: Config, s: State, acts: seq<Act>, care: Care)
    requires cfg.lim.chunkSize > 0 && IndexesWith(hash, cfg, s, care) && IsActRun(hash, cfg, s, acts, care)
    ensures IndexesWith(hash, cfg, RunOf(hash, cfg, s, acts, care), care)
    decreases acts
  {
    if acts != [] {
      ActKept(hash, cfg, s, acts[0], care);
      RunKept(hash, cfg, AfterAct(hash, cfg, s, acts[0]), acts[1..], care);
    }
  }

  /** From a fresh build on, over every run of acts that name files in which no delete of anything the
      tree shows is dropped, lost conflicts with their backups and dropped writes included: the metadata
      covers exactly the tree's files, `file_count` counts them, every stored hash is correct, and each
      indexed file is a file on disk. */
  lemma IndexConsistentOverRuns(hash: Hasher, cfg: Config, s: State, acts: seq<Act>)
    requires cfg.lim.chunkSize > 0 && TreeAgrees(hash, cfg, s) && MetaAgrees(s)
    requires IsActRun(hash, cfg, s, acts, ShownDeletesSeen)
    ensures var t := RunOf(hash, cfg, s, acts, ShownDeletesSeen);
      && MetaAgrees(t) && |t.meta.Keys| == MerkleCount.CountFiles(t.tree) && Consistent(hash, t.tree)
      && forall p :: p in t.meta ==> DataAt(t.disk, p).Some?
  {
    AgreesOnDisk(hash, cfg, s);
    RunKept(hash, cfg, s, acts, ShownDeletesSeen);
    var t := RunOf(hash, cfg, s, acts, ShownDeletesSeen);
    MerkleCount.CountFilesExact(t.tree);
    forall p | p in t.meta
      ensures DataAt(t.disk, p).Some?
    {
      FilePathsFind(t.tree, p);
      assert OnDiskAt(t.tree, t.disk, p);
    }
  }

  /** Over every run whose acts also leave nothing unshown the tree moreover equals a rebuild from disk. */
  lemma IndexAgreesOverRuns(hash: Hasher, cfg: Config, s: State, acts: seq<Act>)
    requires cfg.lim.chunkSize > 0 && TreeAgrees(hash, cfg, s) && MetaAgrees(s)
    requires IsActRun(hash, cfg, s, acts, NothingUnshown)
    ensures var t := RunOf(hash, cfg, s, acts, NothingUnshown);
      TreeAgrees(hash, cfg, t) && MetaAgrees(t) && |t.meta.Keys| == MerkleCount.CountFiles(t.tree)
  {
    AgreesOnDisk(hash, cfg, s);
    RunKept(hash, cfg, s, acts, NothingUnshown);
    MerkleCount.CountFilesExact(RunOf(hash, cfg, s, acts, NothingUnshown).tree);
  }

  /** Where all that the tree shows is on disk, storing a file changes the total size by exactly its new
      length minus the one indexed before; where the tree agrees with the disk, that is its old length. */
  lemma StoreChangesSize(hash: Hasher, cfg: Config, s: State, path: Path, data: Bytes, origin: Origin)
    requires cfg.lim.chunkSize > 0 && TreeOnDisk(hash, s) && Writable(s.disk, path)
    ensures var t := Stored(hash, cfg, s, path, data, origin);
      MerkleCount.CountSize(t.tree) + MerkleCount.SizeAt(s.tree, path) == MerkleCount.CountSize(s.tree) + |data|
    ensures TreeAgrees(hash, cfg, s) && !ShouldExclude(cfg.patterns, path) ==>
      MerkleCount.SizeAt(s.tree, path) == if DataAt(s.disk, path).Some? then |DataAt(s.disk, path).value| else 0
  {
    WritableIndexed(hash, s, path);
    MerkleCount.InsertSize(hash, s.tree, path, FileNode(hash, data, cfg.lim.chunkSize));
    if TreeAgrees(hash, cfg, s) {
      WritablePermitted(hash, cfg.Scanning(), s.disk, [], path);
      ScanFile(hash, cfg.Scanning(), s.disk, path);
    }
  }
}
