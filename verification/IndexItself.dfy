/** Exactly when a peer's tree and metadata stay together, whatever is on disk. */
module IndexItself {
  import opened ByteStrings
  import opened Merkle
  import opened Disk
  import opened Clock
  import opened ConflictName
  import opened Replica
  import opened Fetching
  import opened IndexAgreement
  import MerkleCount

  /** The tree is a directory with correct hashes, and there is metadata for exactly its files. */
  ghost predicate Itself(hash: Hasher, s: State) {
    s.tree.Directory? && Consistent(hash, s.tree) && MetaAgrees(s)
  }

  /** No file of the tree is above the path or below it. */
  ghost predicate CrossesNothing(tree: Node, path: Path) {
    path != [] && forall f :: f in FilePaths(tree) ==> Unrelated(f, path)
  }

  lemma CrossesNothingIff(tree: Node, path: Path)
    requires tree.Directory?
    ensures CrossesNothing(tree, path) <==> Permitted(tree, path) && NoFilesBelow(tree, path)
  {
    if CrossesNothing(tree, path) {
      UncrossedIsPermitted(tree, path);
    } else if path != [] {
      var f :| f in FilePaths(tree) && !Unrelated(f, path);
      if f <= path {
        FileAboveBlocks(tree, path, f);
      }
    }
  }

  lemma UncrossedIsPermitted(tree: Node, path: Path)
    requires tree.Directory? && CrossesNothing(tree, path)
    ensures Permitted(tree, path)
  {
    PermittedIff(tree, path);
    forall i | 0 <= i < |path|
      ensures !IsFile(Find(tree, path[..i]))
    {
      FilePathsFind(tree, path[..i]);
      assert path[..i] <= path && path[..i] != path;
    }
  }

  lemma FileAboveBlocks(tree: Node, path: Path, f: Path)
    requires f in FilePaths(tree) && f <= path && f != path
    ensures !Permitted(tree, path)
  {
    FilePathsFind(tree, f);
    PermittedIff(tree, path);
    assert path[..|f|] == f;
  }

  // ---- One path indexed or forgotten ----

  lemma IndexedItselfIff(hash: Hasher, s: State, t: State, path: Path, file: Node)
    requires Itself(hash, s) && file.File?
    requires t.tree == Insert(hash, s.tree, path, file) && t.meta.Keys == s.meta.Keys + {path}
    ensures Itself(hash, t) <==> CrossesNothing(s.tree, path)
  {
    CrossesNothingIff(s.tree, path);
    IndexChangeIff(hash, s.tree, path, file);
    InsertConsistent(hash, s.tree, path, file);
  }

  lemma ForgottenItselfIff(hash: Hasher, s: State, t: State, path: Path)
    requires Itself(hash, s) && path != []
    requires t.tree == Remove(hash, s.tree, path) && t.meta.Keys == s.meta.Keys - {path}
    ensures Itself(hash, t) <==> NoFilesBelow(s.tree, path)
  {
    IndexRemovalIff(hash, s.tree, path);
    RemoveConsistent(hash, s.tree, path);
  }

  /** What is stored crosses nothing. */
  ghost predicate FetchFits(cfg: Config, tree: Node, disk: Fs, remote: Remote, path: Path, indices: seq<nat>)
    requires remote.lim.chunkSize > 0
  {
    Stores(cfg, disk, remote, path, indices) ==> CrossesNothing(tree, path)
  }

  /** A fetch keeps tree and metadata together if and only if what it stores, if anything, crosses no
      file and no directory the tree shows. */
  lemma FetchItselfIff(hash: Hasher, cfg: Config, s: State, remote: Remote, path: Path, indices: seq<nat>,
      origin: Origin)
    requires cfg.lim.chunkSize > 0 && remote.lim.chunkSize > 0 && Itself(hash, s)
    ensures Itself(hash, Fetched(hash, cfg, s, remote, path, indices, origin)) <==>
      FetchFits(cfg, s.tree, s.disk, remote, path, indices)
  {
    if Stores(cfg, s.disk, remote, path, indices) {
      var file := FileNode(hash, FetchedData(cfg, s.disk, remote, path, indices).value, cfg.lim.chunkSize);
      IndexedItselfIff(hash, s, Fetched(hash, cfg, s, remote, path, indices, origin), path, file);
    }
  }

  /** So does indexing a local change. */
  lemma LocalChangeItselfIff(hash: Hasher, cfg: Config, s: State, path: Path, now: nat)
    requires cfg.lim.chunkSize > 0 && DataAt(s.disk, path).Some? && Itself(hash, s)
    requires Get(MetaAt(s, path, cfg.localId).clock, cfg.localId) < U64_MAX
    ensures Itself(hash, LocalChanged(hash, cfg, s, path, now)) <==> CrossesNothing(s.tree, path)
  {
    var file := FileNode(hash, DataAt(s.disk, path).value, cfg.lim.chunkSize);
    IndexedItselfIff(hash, s, LocalChanged(hash, cfg, s, path, now), path, file);
  }

  /** Whatever handling the change fetches fits. */
  ghost predicate ChangeFits(cfg: Config, s: State, remote: Remote, c: Change)
    requires remote.lim.chunkSize > 0
  {
    c.peer == cfg.localId ||
    match Verdict(cfg, s, c)
    case Accept => FetchFits(cfg, s.tree, s.disk, remote, c.path, IndicesOf(c.chunks))
    case Reject => true
    case Conflict(loser) =>
      var backup := ConflictPath(c.path, loser);
      if loser == cfg.localId
      then FetchFits(cfg, s.tree, BackedUp(s.disk, c.path, backup), remote, c.path, IndicesOf(c.chunks))
      else FetchFits(cfg, s.tree, s.disk, remote, backup, IndicesOf(c.chunks))
  }

  lemma ChangeItselfIff(hash: Hasher, cfg: Config, s: State, remote: Remote, c: Change)
    requires cfg.lim.chunkSize > 0 && remote.lim.chunkSize > 0 && Itself(hash, s)
    ensures Itself(hash, ChangeHandled(hash, cfg, s, remote, c)) <==> ChangeFits(cfg, s, remote, c)
  {
    if c.peer != cfg.localId {
      var origin := Origin(c.clock, c.timestamp, c.peer);
      var indices := IndicesOf(c.chunks);
      match Verdict(cfg, s, c)
      case Accept => FetchItselfIff(hash, cfg, s, remote, c.path, indices, origin);
      case Reject =>
      case Conflict(loser) =>
        var backup := ConflictPath(c.path, loser);
        if loser == cfg.localId {
          FetchItselfIff(hash, cfg, s.(disk := BackedUp(s.disk, c.path, backup)), remote, c.path, indices, origin);
        } else {
          FetchItselfIff(hash, cfg, s, remote, backup, indices, origin);
        }
    }
  }

  // ---- A pull ----

  ghost predicate ItemFits(cfg: Config, tree: Node, disk: Fs, remote: Remote, it: Item)
    requires remote.lim.chunkSize > 0
  {
    FetchFits(cfg, tree, disk, remote, it.path, Upto(it.chunks))
  }

  /** Metadata for one path and a file in the tree at another, one of them below the other. */
  ghost predicate Clash(s: State, at: Path) {
    exists p, q :: p in s.meta && q in FilePaths(s.tree) && Clashing(p, q, at)
  }

  ghost predicate Clashing(p: Path, q: Path, at: Path) {
    && p != q && (p <= q || q <= p)
    && ((p == at && q <= at) || (q == at && at <= p))
  }

  lemma ClashIsNotItself(hash: Hasher, s: State, at: Path)
    requires Clash(s, at)
    ensures !Itself(hash, s)
  {
    var p, q :| p in s.meta && q in FilePaths(s.tree) && Clashing(p, q, at);
    if p in FilePaths(s.tree) {
      FilePathsFind(s.tree, p);
      FilePathsFind(s.tree, q);
      if p <= q {
        FilesPrefixFree(s.tree, p, q);
      } else {
        FilesPrefixFree(s.tree, q, p);
      }
    }
  }

  /** Storing a path that crosses something leaves a clash. */
  lemma CrossingClashes(hash: Hasher, s: State, t: State, path: Path, file: Node)
    requires Itself(hash, s) && file.File? && !CrossesNothing(s.tree, path) && path != []
    requires t.tree == Insert(hash, s.tree, path, file) && t.meta.Keys == s.meta.Keys + {path}
    ensures Clash(t, path)
  {
    CrossesNothingIff(s.tree, path);
    PermittedIff(s.tree, path);
    if Permitted(s.tree, path) {
      var p :| p in FilePaths(s.tree) && path <= p && p != path;
      InsertedFiles(hash, s.tree, path, file, path);
      assert p in t.meta && path in FilePaths(t.tree) && Clashing(p, path, path);
    } else {
      var i :| 0 <= i < |path| && IsFile(Find(s.tree, path[..i]));
      FilePathsFind(s.tree, path[..i]);
      InsertNoOp(hash, s.tree, path, file);
      assert path in t.meta && path[..i] in FilePaths(t.tree) && Clashing(path, path[..i], path);
    }
  }

  /** Later fetches of unrelated paths do not resolve it. */
  lemma ClashStays(hash: Hasher, cfg: Config, s: State, remote: Remote, it: Item, now: nat, at: Path)
    requires cfg.lim.chunkSize > 0 && remote.lim.chunkSize > 0 && s.tree.Directory? && Consistent(hash, s.tree)
    requires Clash(s, at) && Unrelated(it.path, at)
    ensures var t := ItemFetched(hash, cfg, s, remote, it, now);
      Clash(t, at) && t.tree.Directory? && Consistent(hash, t.tree)
  {
    var t := ItemFetched(hash, cfg, s, remote, it, now);
    var p, q :| p in s.meta && q in FilePaths(s.tree) && Clashing(p, q, at);
    if Stores(cfg, s.disk, remote, it.path, Upto(it.chunks)) {
      var data := FetchedData(cfg, s.disk, remote, it.path, Upto(it.chunks)).value;
      var file := FileNode(hash, data, cfg.lim.chunkSize);
      InsertConsistent(hash, s.tree, it.path, file);
      FileStays(hash, s.tree, it.path, file, q, at);
    }
    assert p in t.meta && q in FilePaths(t.tree);
  }

  lemma FileStays(hash: Hasher, tree: Node, path: Path, file: Node, q: Path, at: Path)
    requires tree.Directory? && Consistent(hash, tree) && file.File?
    requires q in FilePaths(tree) && q <= at && Unrelated(path, at)
    ensures q in FilePaths(Insert(hash, tree, path, file))
  {
    if Permitted(tree, path) {
      InsertedFiles(hash, tree, path, file, q);
      assert path <= q ==> path <= at by {
        assert q == at[..|q|];
      }
    } else {
      InsertNoOp(hash, tree, path, file);
    }
  }

  lemma {:induction false} ItemsClash(hash: Hasher, cfg: Config, s: State, remote: Remote, items: seq<Item>, now: nat,
      at: Path)
    requires cfg.lim.chunkSize > 0 && remote.lim.chunkSize > 0 && s.tree.Directory? && Consistent(hash, s.tree)
    requires Clash(s, at) && forall it :: it in items ==> Unrelated(it.path, at)
    ensures Clash(ItemsFetched(hash, cfg, s, remote, items, now), at)
    decreases items
  {
    if items != [] {
      ClashStays(hash, cfg, s, remote, items[0], now, at);
      ItemsClash(hash, cfg, ItemFetched(hash, cfg, s, remote, items[0], now), remote, items[1..], now, at);
    }
  }

  /** A fetch that fits does not change whether another item of the pull fits. */
  lemma FitsAfter(hash: Hasher, cfg: Config, s: State, remote: Remote, it: Item, now: nat, other: Item)
    requires cfg.lim.chunkSize > 0 && remote.lim.chunkSize > 0 && Itself(hash, s) && Unrelated(it.path, other.path)
    requires ItemFits(cfg, s.tree, s.disk, remote, it)
    ensures var t := ItemFetched(hash, cfg, s, remote, it, now);
      ItemFits(cfg, t.tree, t.disk, remote, other) <==> ItemFits(cfg, s.tree, s.disk, remote, other)
  {
    if Stores(cfg, s.disk, remote, it.path, Upto(it.chunks)) {
      var data := FetchedData(cfg, s.disk, remote, it.path, Upto(it.chunks)).value;
      StoresAfter(cfg, s.disk, remote, it.path, data, other);
      CrossesAfter(hash, s.tree, it.path, FileNode(hash, data, cfg.lim.chunkSize), other.path);
    }
  }

  lemma StoresAfter(cfg: Config, disk: Fs, remote: Remote, path: Path, data: Bytes, other: Item)
    requires remote.lim.chunkSize > 0 && Writable(disk, path) && Unrelated(path, other.path)
    ensures Stores(cfg, Write(disk, path, data), remote, other.path, Upto(other.chunks))
      <==> Stores(cfg, disk, remote, other.path, Upto(other.chunks))
  {
    DownloadAnywhere(cfg, Write(disk, path, data), disk, remote, other.path, Upto(other.chunks));
    if Writable(disk, other.path) {
      WriteKeepsWritable(disk, path, data, other.path);
    }
    if Writable(Write(disk, path, data), other.path) {
      WriteAddsNoRoom(disk, path, data, other.path);
    }
  }

  lemma CrossesAfter(hash: Hasher, tree: Node, path: Path, file: Node, q: Path)
    requires tree.Directory? && Consistent(hash, tree) && file.File? && CrossesNothing(tree, path) && Unrelated(path, q)
    ensures CrossesNothing(Insert(hash, tree, path, file), q) <==> CrossesNothing(tree, q)
  {
    CrossesNothingIff(tree, path);
    IndexChangeIff(hash, tree, path, file);
  }

  lemma {:induction false} ItemsItselfIff(hash: Hasher, cfg: Config, s: State, remote: Remote, items: seq<Item>,
      now: nat)
    requires cfg.lim.chunkSize > 0 && remote.lim.chunkSize > 0 && Itself(hash, s) && AllUnrelated(items)
    ensures Itself(hash, ItemsFetched(hash, cfg, s, remote, items, now)) <==>
      forall it :: it in items ==> ItemFits(cfg, s.tree, s.disk, remote, it)
    decreases items
  {
    if items != [] {
      var it, rest := items[0], items[1..];
      var t := ItemFetched(hash, cfg, s, remote, it, now);
      FetchItselfIff(hash, cfg, s, remote, it.path, Upto(it.chunks), Origin(map[], now, remote.id));
      if ItemFits(cfg, s.tree, s.disk, remote, it) {
        ItemsItselfIff(hash, cfg, t, remote, rest, now);
        forall other | other in rest
          ensures ItemFits(cfg, t.tree, t.disk, remote, other) <==> ItemFits(cfg, s.tree, s.disk, remote, other)
        {
          FitsAfter(hash, cfg, s, remote, it, now, other);
        }
      } else {
        var file := FileNode(hash, FetchedData(cfg, s.disk, remote, it.path, Upto(it.chunks)).value, cfg.lim.chunkSize);
        CrossingClashes(hash, s, t, it.path, file);
        InsertConsistent(hash, s.tree, it.path, file);
        ItemsClash(hash, cfg, t, remote, rest, now, it.path);
        ClashIsNotItself(hash, ItemsFetched(hash, cfg, t, remote, rest, now), it.path);
      }
    }
  }

  ghost predicate PullFits(cfg: Config, s: State, remote: Remote)
    requires remote.lim.chunkSize > 0
  {
    forall it :: it in PullItems(cfg, s.tree, remote.tree) ==> ItemFits(cfg, s.tree, s.disk, remote, it)
  }

  /** A pull keeps tree and metadata together if and only if every file it asks for and can store crosses
      nothing that the tree showed before the pull. */
  lemma PullItselfIff(hash: Hasher, cfg: Config, s: State, remote: Remote, now: nat)
    requires cfg.lim.chunkSize > 0 && remote.lim.chunkSize > 0 && Itself(hash, s)
    ensures Itself(hash, Reconciled(hash, cfg, s, remote, now)) <==> PullFits(cfg, s, remote)
  {
    PullIsItems(hash, cfg, s, remote, now);
    PullItemsUnrelated(cfg, s.tree, remote.tree);
    ItemsItselfIff(hash, cfg, s, remote, PullItems(cfg, s.tree, remote.tree), now);
  }

  // ---- Whole runs ----

  /** Each path the act indexes or forgets crosses nothing that the tree shows. */
  ghost predicate Fits(cfg: Config, s: State, act: Act)
    requires NamesFiles(cfg, s, act)
  {
    match act
    case UserWrote(path, _, _) => CrossesNothing(s.tree, path)
    case UserWroteUnseen(_, _) => true
    case UserDeleted(path, _) => NoFilesBelow(s.tree, path)
    case UserDeletedUnseen(_) => true
    case Notified(remote, c) => ChangeFits(cfg, s, remote, c)
    case DeleteNotified(t) => t.deletedBy == cfg.localId || NoFilesBelow(s.tree, t.path)
    case Pulled(remote, _) => PullFits(cfg, s, remote)
  }

  /** Whatever events have been dropped before: an act keeps tree and metadata together if and only if it
      fits. */
  lemma ActItselfIff(hash: Hasher, cfg: Config, s: State, act: Act)
    requires cfg.lim.chunkSize > 0 && NamesFiles(cfg, s, act) && Itself(hash, s)
    ensures Itself(hash, AfterAct(hash, cfg, s, act)) <==> Fits(cfg, s, act)
  {
    match act
    case UserWrote(path, data, now) =>
      WrittenData(cfg, s, act);
      LocalChangeItselfIff(hash, cfg, s.(disk := Write(s.disk, path, data)), path, now);
    case UserWroteUnseen(_, _) =>
    case UserDeleted(path, now) =>
      ForgottenItselfIff(hash, s, AfterAct(hash, cfg, s, act), path);
    case UserDeletedUnseen(_) =>
    case Notified(remote, c) =>
      ChangeItselfIff(hash, cfg, s, remote, c);
    case DeleteNotified(t) =>
      if t.deletedBy != cfg.localId {
        ForgottenItselfIff(hash, s, AfterAct(hash, cfg, s, act), t.path);
      }
    case Pulled(remote, now) =>
      PullItselfIff(hash, cfg, s, remote, now);
  }

  ghost predicate ItselfThroughout(hash: Hasher, cfg: Config, s: State, acts: seq<Act>)
    requires cfg.lim.chunkSize > 0 && IsActRun(hash, cfg, s, acts, AnyAct)
    decreases acts
  {
    Itself(hash, s) && (acts != [] ==> ItselfThroughout(hash, cfg, AfterAct(hash, cfg, s, acts[0]), acts[1..]))
  }

  ghost predicate FitsThroughout(hash: Hasher, cfg: Config, s: State, acts: seq<Act>)
    requires cfg.lim.chunkSize > 0 && IsActRun(hash, cfg, s, acts, AnyAct)
    decreases acts
  {
    acts != [] ==> Fits(cfg, s, acts[0]) && FitsThroughout(hash, cfg, AfterAct(hash, cfg, s, acts[0]), acts[1..])
  }

  /** Over every run of acts that name files, dropped deletes and writes and lost conflicts included:
      metadata and tree stay together throughout if and only if every act fits. */
  lemma {:induction false} ItselfOverRunsIff(hash: Hasher, cfg: Config, s: State, acts: seq<Act>)
    requires cfg.lim.chunkSize > 0 && IsActRun(hash, cfg, s, acts, AnyAct) && Itself(hash, s)
    ensures ItselfThroughout(hash, cfg, s, acts) <==> FitsThroughout(hash, cfg, s, acts)
    decreases acts
  {
    if acts != [] {
      var t := AfterAct(hash, cfg, s, acts[0]);
      ActItselfIff(hash, cfg, s, acts[0]);
      if Itself(hash, t) {
        ItselfOverRunsIff(hash, cfg, t, acts[1..]);
      } else {
        assert !ItselfThroughout(hash, cfg, t, acts[1..]);
      }
    }
  }

  /** Where they do, `file_count` counts the files of the tree. */
  lemma {:induction false} CountedThroughout(hash: Hasher, cfg: Config, s: State, acts: seq<Act>)
    requires cfg.lim.chunkSize > 0 && IsActRun(hash, cfg, s, acts, AnyAct) && ItselfThroughout(hash, cfg, s, acts)
    ensures var t := RunOf(hash, cfg, s, acts, AnyAct);
      Itself(hash, t) && |t.meta.Keys| == MerkleCount.CountFiles(t.tree)
    decreases acts
  {
    MerkleCount.CountFilesExact(s.tree);
    if acts != [] {
      CountedThroughout(hash, cfg, AfterAct(hash, cfg, s, acts[0]), acts[1..]);
    }
  }

  // ---- A delete that is dropped ----

  /** A file that is deleted so soon after its download that the event is dropped stays in tree and
      metadata. If a file is then written below its path and indexed, the metadata covers it and the tree
      does not: the insertion finds a file in its way. */
  lemma DroppedDeleteBreaks(hash: Hasher, cfg: Config, s: State, path: Path, name: Name, data: Bytes, now: nat)
    requires cfg.lim.chunkSize > 0 && TreeAgrees(hash, cfg, s) && MetaAgrees(s) && path in s.meta
    requires !ShouldExclude(cfg.patterns, path + [name]) && !IsConflictBackup(path + [name])
    ensures NamesFiles(cfg, s, UserDeletedUnseen(path))
    ensures var t := AfterAct(hash, cfg, s, UserDeletedUnseen(path));
      && path in t.meta && DataAt(t.disk, path) == None
      && NamesFiles(cfg, t, UserWrote(path + [name], data, now))
      && !MetaAgrees(AfterAct(hash, cfg, t, UserWrote(path + [name], data, now)))
  {
    FilePathsFind(s.tree, path);
    ScanFile(hash, cfg.Scanning(), s.disk, path);
    var t, below := s.(disk := Delete(s.disk, path)), path + [name];
    DeleteGone(s.disk, path, path);
    DeleteMakesRoom(s.disk, path, name);
    NothingIndexedBelow(s, path, below);
    ScanConsistent(hash, cfg.Scanning(), s.disk, []);
    assert Itself(hash, t) && path in FilePaths(t.tree) && !Unrelated(path, below);
    assert !Fits(cfg, t, UserWrote(below, data, now));
    ActItselfIff(hash, cfg, t, UserWrote(below, data, now));
    IndexingKeepsHashes(hash, cfg, t, UserWrote(below, data, now));
  }

  lemma NothingIndexedBelow(s: State, path: Path, below: Path)
    requires MetaAgrees(s) && path in s.meta && path <= below && path != below
    ensures below !in s.meta
  {
    FilePathsFind(s.tree, path);
    FilePathsFind(s.tree, below);
    if below in s.meta {
      FilesPrefixFree(s.tree, path, below);
    }
  }

  lemma IndexingKeepsHashes(hash: Hasher, cfg: Config, s: State, act: Act)
    requires cfg.lim.chunkSize > 0 && NamesFiles(cfg, s, act) && act.UserWrote? && Itself(hash, s)
    ensures var t := AfterAct(hash, cfg, s, act); t.tree.Directory? && Consistent(hash, t.tree)
  {
    WrittenData(cfg, s, act);
    InsertConsistent(hash, s.tree, act.path, FileNode(hash, act.data, cfg.lim.chunkSize));
  }
}
