/** Reconciliation: one pull overlays the remote files, a pull in each direction makes two peers equal. */
module Reconciliation {
  import opened ByteStrings
  import opened Merkle
  import opened MerkleDiff
  import opened MerklePatch
  import opened Disk
  import opened Transfer
  import opened Replica
  import opened IndexAgreement
  import opened Fetching
  import Chunk
  import HashSoundness
  import MerkleReport

  function DataOr(o: Option<Bytes>): Bytes {
    if o.Some? then o.value else []
  }

  /** What a path holds after a pull: the remote data over the old copy, or the old copy. */
  function PulledAt(local: Option<Bytes>, remote: Option<Bytes>): Option<Bytes> {
    if remote.None? then local else Some(Patched(DataOr(local), remote.value))
  }

  /** Remote files can be written here, and fit the limits. */
  ghost predicate Pullable(cfg: Config, disk: Fs, remote: Remote) {
    forall p :: ContentAt(cfg.Scanning(), remote.disk, p).Some? ==>
      Writable(disk, p) && Fits(cfg.lim, ContentAt(cfg.Scanning(), remote.disk, p).value)
  }

  /** Same settings on both sides, a remote index in agreement with its disk. */
  ghost predicate Compatible(hash: Hasher, cfg: Config, remote: Remote) {
    && cfg.lim.chunkSize > 0 && remote.lim == cfg.lim && remote.disk.Folder?
    && remote.tree == Scan(hash, cfg.Scanning(), remote.disk, [])
  }

  /** No two different files at the same path share their node. */
  ghost predicate FilesDistinguished(hash: Hasher, cfg: Config, a: Fs, b: Fs)
    requires cfg.lim.chunkSize > 0
  {
    forall p :: FileDistinguished(hash, cfg, a, b, p)
  }

  ghost predicate FileDistinguished(hash: Hasher, cfg: Config, a: Fs, b: Fs, p: Path)
    requires cfg.lim.chunkSize > 0
  {
    var x, y := ContentAt(cfg.Scanning(), a, p), ContentAt(cfg.Scanning(), b, p);
    x.Some? && y.Some? && FileNode(hash, x.value, cfg.lim.chunkSize) == FileNode(hash, y.value, cfg.lim.chunkSize) ==>
      x == y
  }

  /** That holds when the hash function does not collide on what the two scans feed to it. */
  lemma CollisionFreeDistinguishes(hash: Hasher, cfg: Config, a: Fs, b: Fs)
    requires cfg.lim.chunkSize > 0
    requires CollisionFree(hash, HashSoundness.ScanInputs(hash, cfg.Scanning(), a, [])
                                 + HashSoundness.ScanInputs(hash, cfg.Scanning(), b, []))
    ensures FilesDistinguished(hash, cfg, a, b)
  {
    forall p
      ensures FileDistinguished(hash, cfg, a, b, p)
    {
      var x, y := ContentAt(cfg.Scanning(), a, p), ContentAt(cfg.Scanning(), b, p);
      if x.Some? && y.Some?
         && FileNode(hash, x.value, cfg.lim.chunkSize) == FileNode(hash, y.value, cfg.lim.chunkSize)
      {
        HashSoundness.FileNodeSound(hash, cfg.Scanning(), a, cfg.Scanning(), b, p);
      }
    }
  }

  // ---- Trees without empty directories ----

  ghost predicate NoEmptyDirs(node: Node) {
    node.Directory? ==> forall k :: k in node.children ==>
      (node.children[k].Directory? ==> node.children[k].children != map[]) && NoEmptyDirs(node.children[k])
  }

  lemma {:induction false} InsertKeepsNoEmptyDirs(hash: Hasher, tree: Node, path: Path, file: Node)
    requires NoEmptyDirs(tree) && Permitted(tree, path) && file.File?
    ensures NoEmptyDirs(Insert(hash, tree, path, file))
    decreases path
  {
    if |path| > 1 {
      InsertKeepsNoEmptyDirs(hash, ChildOrEmpty(hash, tree.children, path[0]), path[1..], file);
    }
  }

  lemma {:induction false} SomeFile(node: Node) returns (p: Path)
    requires NoEmptyDirs(node) && (node.Directory? ==> node.children != map[])
    ensures IsFile(Find(node, p))
  {
    if node.File? {
      p := [];
    } else {
      var k :| k in node.children;
      var q := SomeFile(node.children[k]);
      p := [k] + q;
      MerkleReport.FindStep(node, k, q);
    }
  }

  /** The file node at a path, if there is one. */
  ghost function FileAt(node: Node, p: Path): Option<Node> {
    if IsFile(Find(node, p)) then Find(node, p) else None
  }

  lemma SameChildFiles(a: Node, b: Node, k: Name)
    requires a.Directory? && b.Directory? && k in a.children && k in b.children
    requires forall p :: FileAt(a, p) == FileAt(b, p)
    ensures forall p :: FileAt(a.children[k], p) == FileAt(b.children[k], p)
  {
    forall p
      ensures FileAt(a.children[k], p) == FileAt(b.children[k], p)
    {
      MerkleReport.FindStep(a, k, p);
      MerkleReport.FindStep(b, k, p);
      assert FileAt(a, [k] + p) == FileAt(b, [k] + p);
    }
  }

  lemma ChildNeeded(a: Node, b: Node, k: Name)
    requires a.Directory? && b.Directory? && k in a.children && NoEmptyDirs(a)
    requires forall p :: FileAt(a, p) == FileAt(b, p)
    ensures k in b.children
  {
    var q := SomeFile(a.children[k]);
    MerkleReport.FindStep(a, k, q);
    MerkleReport.FindStep(b, k, q);
    assert FileAt(a, [k] + q) == FileAt(b, [k] + q);
  }

  /** Consistent trees without empty directories are determined by their files. */
  lemma {:induction false} SameFilesSameTree(hash: Hasher, a: Node, b: Node)
    requires Consistent(hash, a) && Consistent(hash, b) && NoEmptyDirs(a) && NoEmptyDirs(b)
    requires a.Directory? && b.Directory?
    requires forall p :: FileAt(a, p) == FileAt(b, p)
    ensures a == b
    decreases a
  {
    forall k
      ensures k in a.children <==> k in b.children
    {
      if k in a.children {
        ChildNeeded(a, b, k);
      } else if k in b.children {
        ChildNeeded(b, a, k);
      }
    }
    forall k | k in a.children
      ensures a.children[k] == b.children[k]
    {
      SameChildFiles(a, b, k);
      var x, y := a.children[k], b.children[k];
      assert FileAt(x, []) == FileAt(y, []);
      if x.Directory? {
        SameFilesSameTree(hash, x, y);
      }
    }
    assert a.children.Keys == b.children.Keys;
    assert a.children == b.children;
  }

  // ---- A pull in progress ----

  /** The files at `done` have been pulled from `remote` onto what `start` held. */
  ghost predicate Progress(hash: Hasher, cfg: Config, start: Fs, remote: Remote, s: State, done: set<Path>)
    requires cfg.lim.chunkSize > 0
  {
    && TreeAgrees(hash, cfg, s)
    && Pullable(cfg, s.disk, remote)
    && (NoEmptyDirs(Scan(hash, cfg.Scanning(), start, [])) ==> NoEmptyDirs(s.tree))
    && forall p :: HoldsPulled(cfg, start, remote, s.disk, done, p)
  }

  ghost predicate HoldsPulled(cfg: Config, start: Fs, remote: Remote, disk: Fs, done: set<Path>, p: Path) {
    var a, b := ContentAt(cfg.Scanning(), start, p), ContentAt(cfg.Scanning(), remote.disk, p);
    ContentAt(cfg.Scanning(), disk, p) == if p in done then PulledAt(a, b) else a
  }

  lemma PulledTwice(a: Option<Bytes>, b: Option<Bytes>)
    ensures PulledAt(PulledAt(a, b), b) == PulledAt(a, b)
  {
  }

  lemma FullFetchStores(hash: Hasher, cfg: Config, s: State, remote: Remote, p: Path, n: nat, origin: Origin)
    requires Compatible(hash, cfg, remote) && Pullable(cfg, s.disk, remote)
    requires ContentAt(cfg.Scanning(), remote.disk, p).Some?
    requires n == |Chunk.Pieces(ContentAt(cfg.Scanning(), remote.disk, p).value, cfg.lim.chunkSize)|
    ensures Writable(s.disk, p)
    ensures var data := Patched(DataOr(DataAt(s.disk, p)), DataAt(remote.disk, p).value);
      Fetched(hash, cfg, s, remote, p, Upto(n), origin) == Stored(hash, cfg, s, p, data, origin)
  {
    forall i: nat | i < n
      ensures i in Upto(n)
    {
      assert Upto(n)[i] == i;
    }
    FullTransfer(cfg.lim, DataAt(remote.disk, p).value, DataOr(DataAt(s.disk, p)), Upto(n));
  }

  /** Fetching a remote file in full pulls exactly that file. */
  lemma FetchPulls(hash: Hasher, cfg: Config, start: Fs, remote: Remote, s: State, done: set<Path>, p: Path, n: nat,
      origin: Origin)
    requires Compatible(hash, cfg, remote) && Progress(hash, cfg, start, remote, s, done)
    requires ContentAt(cfg.Scanning(), remote.disk, p).Some?
    requires n == |Chunk.Pieces(ContentAt(cfg.Scanning(), remote.disk, p).value, cfg.lim.chunkSize)|
    ensures Progress(hash, cfg, start, remote, Fetched(hash, cfg, s, remote, p, Upto(n), origin), done + {p})
  {
    FullFetchStores(hash, cfg, s, remote, p, n, origin);
    var data := Patched(DataOr(DataAt(s.disk, p)), DataAt(remote.disk, p).value);
    WriteAgrees(hash, cfg, s, p, data);
    WritablePermitted(hash, cfg.Scanning(), s.disk, [], p);
    if NoEmptyDirs(s.tree) {
      InsertKeepsNoEmptyDirs(hash, s.tree, p, FileNode(hash, data, cfg.lim.chunkSize));
    }
    StillPullable(cfg, s.disk, remote, p, data);
    forall q
      ensures HoldsPulled(cfg, start, remote, Write(s.disk, p, data), done + {p}, q)
    {
      assert HoldsPulled(cfg, start, remote, s.disk, done, q);
      WritePulls(cfg, start, remote, s.disk, done, p, q);
    }
  }

  lemma WritePulls(cfg: Config, start: Fs, remote: Remote, disk: Fs, done: set<Path>, p: Path, q: Path)
    requires HoldsPulled(cfg, start, remote, disk, done, q)
    requires Writable(disk, p) && ContentAt(cfg.Scanning(), remote.disk, p).Some?
    ensures HoldsPulled(cfg, start, remote,
      Write(disk, p, Patched(DataOr(DataAt(disk, p)), DataAt(remote.disk, p).value)), done + {p}, q)
  {
    WriteData(disk, p, Patched(DataOr(DataAt(disk, p)), DataAt(remote.disk, p).value), q);
    if q == p {
      PulledTwice(ContentAt(cfg.Scanning(), start, p), ContentAt(cfg.Scanning(), remote.disk, p));
    }
  }

  lemma StillPullable(cfg: Config, disk: Fs, remote: Remote, p: Path, data: Bytes)
    requires Pullable(cfg, disk, remote) && ContentAt(cfg.Scanning(), remote.disk, p).Some?
    requires Writable(disk, p)
    ensures Pullable(cfg, Write(disk, p, data), remote)
  {
    forall q | ContentAt(cfg.Scanning(), remote.disk, q).Some?
      ensures Writable(Write(disk, p, data), q)
    {
      if p <= q {
        NothingBelowFile(remote.disk, p, q);
      }
      if q <= p {
        NothingBelowFile(remote.disk, q, p);
      }
      WriteKeepsWritable(disk, p, data, q);
    }
  }

  /** The file paths below `path` that `node` carries. */
  ghost function Carried(path: Path, node: Node): set<Path> {
    set q | q in FilePaths(node) :: path + q
  }

  ghost function CarriedChildren(path: Path, children: map<Name, Node>, keys: seq<Name>): set<Path>
    requires forall k :: k in keys ==> k in children
  {
    if keys == [] then {} else Carried(path + [keys[0]], children[keys[0]]) + CarriedChildren(path, children, keys[1..])
  }

  lemma {:induction false} InCarriedChildren(path: Path, children: map<Name, Node>, keys: seq<Name>, k: Name, q: Path)
    requires forall x :: x in keys ==> x in children
    requires k in keys && q in FilePaths(children[k])
    ensures path + ([k] + q) in CarriedChildren(path, children, keys)
  {
    if k == keys[0] {
      assert path + [k] + q == path + ([k] + q);
    } else {
      InCarriedChildren(path, children, keys[1..], k, q);
    }
  }

  lemma {:induction false} OnlyCarriedChildren(path: Path, node: Node, keys: seq<Name>)
    requires node.Directory? && forall x :: x in keys ==> x in node.children
    ensures CarriedChildren(path, node.children, keys) <= Carried(path, node)
  {
    if keys != [] {
      var k := keys[0];
      OnlyCarriedChildren(path, node, keys[1..]);
      forall p | p in Carried(path + [k], node.children[k])
        ensures p in Carried(path, node)
      {
        var q :| q in FilePaths(node.children[k]) && p == path + [k] + q;
        assert p == path + ([k] + q);
      }
    }
  }

  lemma CarriedSplit(path: Path, node: Node)
    requires node.Directory?
    ensures CarriedChildren(path, node.children, SortedKeys(node.children.Keys)) == Carried(path, node)
  {
    var keys := SortedKeys(node.children.Keys);
    OnlyCarriedChildren(path, node, keys);
    forall p | p in Carried(path, node)
      ensures p in CarriedChildren(path, node.children, keys)
    {
      var r :| r in FilePaths(node) && p == path + r;
      var k, q :| k in node.children && q in FilePaths(node.children[k]) && r == [k] + q;
      InCarriedChildren(path, node.children, keys, k, q);
    }
  }

  lemma FilePulls(hash: Hasher, cfg: Config, start: Fs, remote: Remote, s: State, done: set<Path>, path: Path,
      node: Node, now: nat)
    requires Compatible(hash, cfg, remote) && Progress(hash, cfg, start, remote, s, done)
    requires Find(remote.tree, path) == Some(node) && node.File?
    ensures Progress(hash, cfg, start, remote, NodeFetched(hash, cfg, s, remote, path, node, now),
      done + Carried(path, node))
  {
    ScanFile(hash, cfg.Scanning(), remote.disk, path);
    FetchPulls(hash, cfg, start, remote, s, done, path, |node.chunks|, Origin(map[], now, remote.id));
    CarriedFile(path, node);
  }

  lemma CarriedFile(path: Path, node: Node)
    requires node.File?
    ensures Carried(path, node) == {path}
  {
    assert path + [] == path;
  }

  lemma {:induction false} NodePulls(hash: Hasher, cfg: Config, start: Fs, remote: Remote, s: State, done: set<Path>,
      path: Path, node: Node, now: nat)
    requires Compatible(hash, cfg, remote) && Progress(hash, cfg, start, remote, s, done)
    requires Find(remote.tree, path) == Some(node)
    ensures Progress(hash, cfg, start, remote, NodeFetched(hash, cfg, s, remote, path, node, now),
      done + Carried(path, node))
    decreases node, 1, 0
  {
    match node
    case File(_, _, _) => FilePulls(hash, cfg, start, remote, s, done, path, node, now);
    case Directory(_, children) =>
      ChildrenPull(hash, cfg, start, remote, s, done, path, node, SortedKeys(children.Keys), now);
      CarriedSplit(path, node);
  }

  lemma {:induction false} ChildrenPull(hash: Hasher, cfg: Config, start: Fs, remote: Remote, s: State,
      done: set<Path>, path: Path, node: Node, keys: seq<Name>, now: nat)
    requires Compatible(hash, cfg, remote) && Progress(hash, cfg, start, remote, s, done)
    requires Find(remote.tree, path) == Some(node)
    requires node.Directory? && forall k :: k in keys ==> k in node.children
    ensures Progress(hash, cfg, start, remote, ChildrenFetched(hash, cfg, s, remote, path, node, keys, now),
                     done + CarriedChildren(path, node.children, keys))
    decreases node, 0, |keys|
  {
    if keys == [] {
      assert done + CarriedChildren(path, node.children, keys) == done;
    } else {
      var k, child := keys[0], node.children[keys[0]];
      FindAppend(remote.tree, path, [k]);
      assert Find(node, [k]) == Some(child);
      NodePulls(hash, cfg, start, remote, s, done, path + [k], child, now);
      var s' := NodeFetched(hash, cfg, s, remote, path + [k], child, now);
      ChildrenPull(hash, cfg, start, remote, s', done + Carried(path + [k], child), path, node, keys[1..], now);
      assert done + Carried(path + [k], child) + CarriedChildren(path, node.children, keys[1..])
          == done + CarriedChildren(path, node.children, keys);
    }
  }

  /** The files that the added and modified nodes of a diff carry. */
  ghost function CarriedBy(e: DiffEntry): set<Path> {
    match e
    case Added(path, node) => Carried(path, node)
    case Modified(path, _, node) => Carried(path, node)
    case Removed(_, _) => {}
  }

  ghost function CarriedByAll(es: seq<DiffEntry>): set<Path> {
    if es == [] then {} else CarriedBy(es[0]) + CarriedByAll(es[1..])
  }

  lemma {:induction false} EntriesPull(hash: Hasher, cfg: Config, start: Fs, remote: Remote, s: State, done: set<Path>,
      es: seq<DiffEntry>, now: nat)
    requires Compatible(hash, cfg, remote) && Progress(hash, cfg, start, remote, s, done)
    requires forall e :: e in es ==> FromRemote(remote.tree, e)
    ensures Progress(hash, cfg, start, remote, EntriesFetched(hash, cfg, s, remote, es, now), done + CarriedByAll(es))
    decreases es
  {
    if es == [] {
      assert done + CarriedByAll(es) == done;
    } else {
      assert FromRemote(remote.tree, es[0]);
      EntryPulls(hash, cfg, start, remote, s, done, es[0], now);
      EntriesPull(hash, cfg, start, remote, EntryFetched(hash, cfg, s, remote, es[0], now), done + CarriedBy(es[0]),
        es[1..], now);
      assert done + CarriedBy(es[0]) + CarriedByAll(es[1..]) == done + CarriedByAll(es);
    }
  }

  lemma EntryPulls(hash: Hasher, cfg: Config, start: Fs, remote: Remote, s: State, done: set<Path>, e: DiffEntry,
      now: nat)
    requires Compatible(hash, cfg, remote) && Progress(hash, cfg, start, remote, s, done) && FromRemote(remote.tree, e)
    ensures Progress(hash, cfg, start, remote, EntryFetched(hash, cfg, s, remote, e, now), done + CarriedBy(e))
  {
    match e
    case Added(path, node) => NodePulls(hash, cfg, start, remote, s, done, path, node, now);
    case Modified(path, _, node) => NodePulls(hash, cfg, start, remote, s, done, path, node, now);
    case Removed(_, _) => assert done + {} == done;
  }

  // ---- One pull ----

  lemma {:induction false} InCarriedByAll(es: seq<DiffEntry>, e: DiffEntry)
    requires e in es
    ensures CarriedBy(e) <= CarriedByAll(es)
  {
    if e != es[0] {
      InCarriedByAll(es[1..], e);
    }
  }

  /** Every remote file whose node differs is pulled. */
  lemma DifferingIsCarried(was: Node, now: Node, p: Path)
    requires NoCollision(was, now) && IsFile(Find(now, p)) && Find(was, p) != Find(now, p)
    ensures p in CarriedByAll(Diff(was, now, []))
  {
    var q, e := MerkleReport.DifferenceCovered(was, now, p);
    MerkleReport.DiffIsPathwise(was, now, e);
    InCarriedByAll(Diff(was, now, []), e);
    var r := p[|q|..];
    assert p == q + r;
    FindAppend(now, q, r);
    FilePathsFind(Find(now, q).value, r);
  }

  /** The assumptions under which `s` pulls from `remote`. */
  ghost predicate CanPull(hash: Hasher, cfg: Config, s: State, remote: Remote) {
    && Compatible(hash, cfg, remote) && !cfg.noPull
    && TreeAgrees(hash, cfg, s) && Pullable(cfg, s.disk, remote)
    && NoCollision(s.tree, remote.tree) && FilesDistinguished(hash, cfg, s.disk, remote.disk)
  }

  lemma PullProgress(hash: Hasher, cfg: Config, s: State, remote: Remote, now: nat)
    requires CanPull(hash, cfg, s, remote)
    ensures Progress(hash, cfg, s.disk, remote, Reconciled(hash, cfg, s, remote, now),
      CarriedByAll(Diff(s.tree, remote.tree, [])))
  {
    var es := Diff(s.tree, remote.tree, []);
    assert Progress(hash, cfg, s.disk, remote, s, {});
    forall e | e in es
      ensures FromRemote(remote.tree, e)
    {
      DiffFromRemote(s.tree, remote.tree, e);
    }
    EntriesPull(hash, cfg, s.disk, remote, s, {}, es, now);
    assert {} + CarriedByAll(es) == CarriedByAll(es);
  }

  /** After a pull every path holds the remote data over the old copy's tail, or, where the remote
      has no file, what it held before; the index still agrees with the disk. */
  lemma PullExact(hash: Hasher, cfg: Config, s: State, remote: Remote, now: nat, p: Path)
    requires CanPull(hash, cfg, s, remote)
    ensures var t := Reconciled(hash, cfg, s, remote, now);
      && TreeAgrees(hash, cfg, t)
      && (NoEmptyDirs(s.tree) ==> NoEmptyDirs(t.tree))
      && ContentAt(cfg.Scanning(), t.disk, p)
         == PulledAt(ContentAt(cfg.Scanning(), s.disk, p), ContentAt(cfg.Scanning(), remote.disk, p))
  {
    PullProgress(hash, cfg, s, remote, now);
    var t, done := Reconciled(hash, cfg, s, remote, now), CarriedByAll(Diff(s.tree, remote.tree, []));
    assert HoldsPulled(cfg, s.disk, remote, t.disk, done, p);
    if p !in done {
      UnpulledIsEqual(hash, cfg, s, remote, p);
    }
  }

  lemma UnpulledIsEqual(hash: Hasher, cfg: Config, s: State, remote: Remote, p: Path)
    requires CanPull(hash, cfg, s, remote) && p !in CarriedByAll(Diff(s.tree, remote.tree, []))
    ensures ContentAt(cfg.Scanning(), s.disk, p)
         == PulledAt(ContentAt(cfg.Scanning(), s.disk, p), ContentAt(cfg.Scanning(), remote.disk, p))
  {
    ScanFile(hash, cfg.Scanning(), s.disk, p);
    ScanFile(hash, cfg.Scanning(), remote.disk, p);
    if ContentAt(cfg.Scanning(), remote.disk, p).Some? {
      if Find(s.tree, p) != Find(remote.tree, p) {
        DifferingIsCarried(s.tree, remote.tree, p);
      }
      assert FileDistinguished(hash, cfg, s.disk, remote.disk, p);
    }
  }

  /** Where the remote has a file, a pull leaves exactly the remote data if and only if the old
      copy was not longer: files are never shortened. */
  lemma PullOverlaysIff(hash: Hasher, cfg: Config, s: State, remote: Remote, now: nat, p: Path)
    requires CanPull(hash, cfg, s, remote) && ContentAt(cfg.Scanning(), remote.disk, p).Some?
    ensures var theirs := ContentAt(cfg.Scanning(), remote.disk, p);
      ContentAt(cfg.Scanning(), Reconciled(hash, cfg, s, remote, now).disk, p) == theirs <==>
      |DataOr(ContentAt(cfg.Scanning(), s.disk, p))| <= |theirs.value|
  {
    PullExact(hash, cfg, s, remote, now, p);
    ReplacedIff(DataOr(ContentAt(cfg.Scanning(), s.disk, p)), ContentAt(cfg.Scanning(), remote.disk, p).value);
  }

  // ---- A pull in each direction ----

  function RemoteOf(s: State, cfg: Config): Remote {
    Remote(s.disk, s.tree, cfg.lim, cfg.localId)
  }

  lemma {:induction false} PieceCountByLength(a: Bytes, b: Bytes, chunkSize: nat)
    requires chunkSize > 0 && |a| == |b|
    ensures |Chunk.Pieces(a, chunkSize)| == |Chunk.Pieces(b, chunkSize)|
    decreases |a|
  {
    if a != [] {
      var n := Chunk.Min(chunkSize, |a|);
      PieceCountByLength(a[n..], b[n..], chunkSize);
    }
  }

  /** What the first peer holds after its pull can be pulled by the second. */
  lemma PulledBack(hash: Hasher, cfg: Config, s: State, cfg': Config, s': State, now: nat)
    requires CanPull(hash, cfg, s, RemoteOf(s', cfg'))
    requires cfg'.lim == cfg.lim && cfg'.patterns == cfg.patterns
    requires Pullable(cfg', s'.disk, RemoteOf(s, cfg))
    ensures Pullable(cfg', s'.disk, RemoteOf(Reconciled(hash, cfg, s, RemoteOf(s', cfg'), now), cfg))
  {
    var t := Reconciled(hash, cfg, s, RemoteOf(s', cfg'), now);
    forall p | ContentAt(cfg'.Scanning(), t.disk, p).Some?
      ensures Writable(s'.disk, p) && Fits(cfg'.lim, ContentAt(cfg'.Scanning(), t.disk, p).value)
    {
      PullExact(hash, cfg, s, RemoteOf(s', cfg'), now, p);
      var a, b := ContentAt(cfg.Scanning(), s.disk, p), ContentAt(cfg.Scanning(), s'.disk, p);
      if b.Some? {
        FileIsWritable(s'.disk, p);
        var longer := if |DataOr(a)| <= |b.value| then b.value else a.value;
        PieceCountByLength(Patched(DataOr(a), b.value), longer, cfg.lim.chunkSize);
      }
    }
  }

  /** Two peers that pull from each other in turn end with the same files, whatever they held
      before; no file need be longer than another. */
  lemma MutualPullConverges(hash: Hasher, cfg: Config, s: State, cfg': Config, s': State, now: nat, now': nat, p: Path)
    requires cfg'.lim == cfg.lim && cfg'.patterns == cfg.patterns
    requires CanPull(hash, cfg, s, RemoteOf(s', cfg')) && Pullable(cfg', s'.disk, RemoteOf(s, cfg)) && !cfg'.noPull
    requires var t := Reconciled(hash, cfg, s, RemoteOf(s', cfg'), now);
      NoCollision(s'.tree, t.tree) && FilesDistinguished(hash, cfg', s'.disk, t.disk)
    ensures var t := Reconciled(hash, cfg, s, RemoteOf(s', cfg'), now);
      var t' := Reconciled(hash, cfg', s', RemoteOf(t, cfg), now');
      && ContentAt(cfg.Scanning(), t.disk, p) == ContentAt(cfg.Scanning(), t'.disk, p)
      && TreeAgrees(hash, cfg, t) && TreeAgrees(hash, cfg', t')
      && (NoEmptyDirs(s.tree) ==> NoEmptyDirs(t.tree)) && (NoEmptyDirs(s'.tree) ==> NoEmptyDirs(t'.tree))
  {
    var t := Reconciled(hash, cfg, s, RemoteOf(s', cfg'), now);
    PullExact(hash, cfg, s, RemoteOf(s', cfg'), now, p);
    PulledBack(hash, cfg, s, cfg', s', now);
    assert cfg'.Scanning() == cfg.Scanning();
    PullExact(hash, cfg', s', RemoteOf(t, cfg), now', p);
    var a, b := ContentAt(cfg.Scanning(), s.disk, p), ContentAt(cfg.Scanning(), s'.disk, p);
    ReplacedIff(DataOr(a), DataOr(b));
  }

  /** If neither tree held empty directories, the two trees, and with them the root hashes, are
      equal afterwards: the next reconciliation finds nothing to do. */
  lemma MutualPullSameTree(hash: Hasher, cfg: Config, s: State, cfg': Config, s': State, now: nat, now': nat)
    requires cfg'.lim == cfg.lim && cfg'.patterns == cfg.patterns
    requires CanPull(hash, cfg, s, RemoteOf(s', cfg')) && Pullable(cfg', s'.disk, RemoteOf(s, cfg)) && !cfg'.noPull
    requires var t := Reconciled(hash, cfg, s, RemoteOf(s', cfg'), now);
      NoCollision(s'.tree, t.tree) && FilesDistinguished(hash, cfg', s'.disk, t.disk)
    requires NoEmptyDirs(s.tree) && NoEmptyDirs(s'.tree)
    ensures var t := Reconciled(hash, cfg, s, RemoteOf(s', cfg'), now);
      t.tree == Reconciled(hash, cfg', s', RemoteOf(t, cfg), now').tree
  {
    var t := Reconciled(hash, cfg, s, RemoteOf(s', cfg'), now);
    var t' := Reconciled(hash, cfg', s', RemoteOf(t, cfg), now');
    MutualPullConverges(hash, cfg, s, cfg', s', now, now', []);
    forall p
      ensures FileAt(t.tree, p) == FileAt(t'.tree, p)
    {
      MutualPullConverges(hash, cfg, s, cfg', s', now, now', p);
      ScanFile(hash, cfg.Scanning(), t.disk, p);
      ScanFile(hash, cfg.Scanning(), t'.disk, p);
    }
    ScanConsistent(hash, cfg.Scanning(), t.disk, []);
    ScanConsistent(hash, cfg.Scanning(), t'.disk, []);
    SameFilesSameTree(hash, t.tree, t'.tree);
  }
}
