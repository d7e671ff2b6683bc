/** The sync engine's handlers, changing one peer's folder, index and event guards in place. */
module Engine {
  import opened ByteStrings
  import opened Merkle
  import opened MerkleDiff
  import opened Disk
  import opened Clock
  import opened Transfer
  import opened ConflictName
  import opened Replica
  import opened Debounce
  import opened Echo
  import opened Fetching
  import Chunk
  import MerkleCount

  ghost function Below(prefix: Path, paths: set<Path>): set<Path> {
    set p | p in paths :: prefix + p
  }

  /** The file paths below the children named in `keys`. */
  ghost function Listed(prefix: Path, children: map<Name, Node>, keys: seq<Name>): set<Path>
    requires forall k :: k in keys ==> k in children
  {
    if keys == [] then {}
    else Listed(prefix, children, keys[..|keys| - 1])
         + Below(prefix + [keys[|keys| - 1]], FilePaths(children[keys[|keys| - 1]]))
  }

  lemma {:induction false} ListedExact(prefix: Path, children: map<Name, Node>, keys: seq<Name>, p: Path)
    requires forall k :: k in keys ==> k in children
    ensures p in Listed(prefix, children, keys) <==>
      exists k, q :: k in keys && q in FilePaths(children[k]) && p == prefix + ([k] + q)
  {
    if keys != [] {
      var rest, k := keys[..|keys| - 1], keys[|keys| - 1];
      ListedExact(prefix, children, rest, p);
      assert forall q: Path :: prefix + [k] + q == prefix + ([k] + q);
      assert forall x :: x in keys <==> x in rest || x == k by {
        assert keys == rest + [k];
      }
    }
  }

  lemma ListedStep(prefix: Path, children: map<Name, Node>, keys: seq<Name>, i: nat)
    requires i < |keys| && forall k :: k in keys ==> k in children
    ensures Listed(prefix, children, keys[..i + 1])
         == Listed(prefix, children, keys[..i]) + Below(prefix + [keys[i]], FilePaths(children[keys[i]]))
  {
    assert keys[..i + 1][..i] == keys[..i];
  }

  lemma ListedAll(prefix: Path, node: Node, keys: seq<Name>)
    requires node.Directory? && forall k :: k in keys <==> k in node.children
    ensures Listed(prefix, node.children, keys) == Below(prefix, FilePaths(node))
  {
    forall p
      ensures p in Listed(prefix, node.children, keys) <==> p in Below(prefix, FilePaths(node))
    {
      ListedExact(prefix, node.children, keys, p);
    }
  }

  ghost predicate FreshOrKept(meta: FileMeta, acc: map<Path, FileMeta>, out: map<Path, FileMeta>) {
    forall p :: p in out ==> out[p] == meta || (p in acc && out[p] == acc[p])
  }

  /** `out` is `acc` with entries for `paths`, each either fresh or kept. */
  ghost predicate Collected(meta: FileMeta, acc: map<Path, FileMeta>, out: map<Path, FileMeta>, paths: set<Path>) {
    out.Keys == acc.Keys + paths && FreshOrKept(meta, acc, out)
  }

  lemma CollectedStep(meta: FileMeta, acc: map<Path, FileMeta>, before: map<Path, FileMeta>, out: map<Path, FileMeta>,
      prefix: Path, children: map<Name, Node>, keys: seq<Name>, i: nat)
    requires i < |keys| && forall k :: k in keys ==> k in children
    requires Collected(meta, acc, before, Listed(prefix, children, keys[..i]))
    requires Collected(meta, before, out, Below(prefix + [keys[i]], FilePaths(children[keys[i]])))
    ensures Collected(meta, acc, out, Listed(prefix, children, keys[..i + 1]))
  {
    ListedStep(prefix, children, keys, i);
  }

  /** Fills the metadata of a freshly scanned tree: one entry per file, and no other. */
  method CollectFileMeta(node: Node, prefix: Path, localPeer: PeerId, now: nat, acc: map<Path, FileMeta>)
    returns (out: map<Path, FileMeta>)
    ensures out.Keys == acc.Keys + Below(prefix, FilePaths(node))
    ensures FreshOrKept(FileMeta(map[], now, localPeer), acc, out)
    decreases node
  {
    match node
    case File(_, _, _) =>
      out := acc[prefix := FileMeta(map[], now, localPeer)];
      assert prefix + [] == prefix;
    case Directory(_, children) =>
      out := acc;
      var keys := SortedKeys(children.Keys);
      for i := 0 to |keys|
        invariant Collected(FileMeta(map[], now, localPeer), acc, out, Listed(prefix, children, keys[..i]))
      {
        ghost var before := out;
        out := CollectFileMeta(children[keys[i]], prefix + [keys[i]], localPeer, now, out);
        CollectedStep(FileMeta(map[], now, localPeer), acc, before, out, prefix, children, keys, i);
      }
      assert keys[..|keys|] == keys;
      ListedAll(prefix, node, keys);
  }

  class SyncEngine {
    const hash: Hasher
    const cfg: Config
    const writeGuard: EventGuard
    const changeDebounce: EventGuard
    var disk: Fs
    var tree: Node
    var meta: map<Path, FileMeta>
    var tombstones: seq<Tombstone>

    function View(): State
      reads this
    {
      State(disk, tree, meta, tombstones)
    }

    ghost predicate Valid()
      reads this, writeGuard, changeDebounce
    {
      writeGuard != changeDebounce && writeGuard.Valid() && changeDebounce.Valid() && cfg.lim.chunkSize > 0
    }

    /** `SyncIndex::build`: the tree is the scan of the folder and every file has an empty clock. */
    constructor Build(hash: Hasher, cfg: Config, disk: Fs, writeTtl: nat, debounceTtl: nat, now: nat)
      requires cfg.lim.chunkSize > 0
      ensures Valid() && fresh(writeGuard) && fresh(changeDebounce)
      ensures this.hash == hash && this.cfg == cfg && this.disk == disk && tombstones == []
      ensures tree == Scan(hash, cfg.Scanning(), disk, [])
      ensures meta.Keys == FilePaths(tree)
      ensures forall p :: p in meta ==> meta[p] == FileMeta(map[], now, cfg.localId)
    {
      var root := FromPathConfigured(hash, cfg.Scanning(), disk, []);
      var m := CollectFileMeta(root, [], cfg.localId, now, map[]);
      assert forall p: Path :: [] + p == p;
      this.hash, this.cfg, this.disk, this.tree, this.meta, this.tombstones := hash, cfg, disk, root, m, [];
      writeGuard := new EventGuard(writeTtl);
      changeDebounce := new EventGuard(debounceTtl);
    }

    method LocalFileChanged(path: Path, now: nat) returns (ok: bool)
      requires cfg.lim.chunkSize > 0
      requires Get(MetaAt(View(), path, cfg.localId).clock, cfg.localId) < U64_MAX
      modifies this
      ensures ok <==> DataAt(old(disk), path).Some?
      ensures View() == if ok then LocalChanged(hash, cfg, old(View()), path, now) else old(View())
    {
      var data := DataAt(disk, path);
      if data == None {
        return false;
      }
      var node := BuildFileNode(hash, data.value, cfg.lim.chunkSize);
      tree := InsertRecursive(hash, tree, path, node);
      var m := if path in meta then meta[path] else FileMeta(map[], 0, cfg.localId);
      var clock := new VectorClock(m.clock);
      clock.Tick(cfg.localId);
      meta := meta[path := FileMeta(clock.counters, now, cfg.localId)];
      ok := true;
    }

    method LocalFileDeleted(path: Path, now: nat)
      modifies this
      ensures View() == LocalDeleted(hash, cfg, old(View()), path, now)
    {
      var rest, _ := RemoveRecursive(hash, tree, path);
      tree := rest;
      var clock := if path in meta then meta[path].clock else map[];
      meta := meta - {path};
      tombstones := tombstones + [Tombstone(path, cfg.localId, clock, now)];
    }

    /** The answer to a chunk request: the file's chunks, or nothing when it cannot be read. */
    method AnswerChunks(remote: Remote, path: Path, indices: seq<nat>) returns (r: Option<seq<Served>>)
      requires remote.lim.chunkSize > 0
      ensures r ==
        if DataAt(remote.disk, path).Some? then Some(Serve(remote.lim, DataAt(remote.disk, path).value, indices))
        else None
    {
      var data := DataAt(remote.disk, path);
      if data == None {
        return None;
      }
      var served := ServeChunks(hash, remote.lim, data.value, indices);
      r := Some(served);
    }

    /** The download half of `fetch_and_apply`. */
    method Download(remote: Remote, path: Path, indices: seq<nat>) returns (r: Option<Bytes>)
      requires remote.lim.chunkSize > 0
      ensures r == FetchedData(cfg, disk, remote, path, indices)
    {
      var excluded := IsExcluded(cfg.patterns, path);
      if excluded {
        return None;
      }
      var answer := AnswerChunks(remote, path, indices);
      if answer == None {
        return None;
      }
      var local := DataAt(disk, path);
      r := PatchChunks(cfg.lim, if local.Some? then local.value else [], answer.value);
    }

    /** The other half: write the file and bring tree, clock and stamp up to date. */
    method Store(path: Path, data: Bytes, origin: Origin)
      requires cfg.lim.chunkSize > 0 && Writable(disk, path)
      modifies this
      ensures View() == Stored(hash, cfg, old(View()), path, data, origin)
    {
      var node := BuildFileNode(hash, data, cfg.lim.chunkSize);
      disk := Write(disk, path, data);
      tree := InsertRecursive(hash, tree, path, node);
      var m := if path in meta then meta[path] else FileMeta(map[], 0, origin.peer);
      var clock := new VectorClock(m.clock);
      clock.Merge(origin.clock);
      meta := meta[path := FileMeta(clock.counters, origin.timestamp, origin.peer)];
    }

    method FetchAndApply(remote: Remote, path: Path, indices: seq<nat>, origin: Origin, instant: Time)
      requires Valid() && remote.lim.chunkSize > 0 && writeGuard.clock <= instant
      modifies this, writeGuard
      ensures Valid() && View() == Fetched(hash, cfg, old(View()), remote, path, indices, origin)
      ensures writeGuard.history
           == old(writeGuard.history) + FetchMarks(cfg, old(disk), remote, path, indices, instant)
      ensures writeGuard.clock <= instant
    {
      var patched := Download(remote, path, indices);
      if patched == None {
        return;
      }
      writeGuard.MarkPath(path, instant);
      if Writable(disk, path) {
        Store(path, patched.value, origin);
      }
    }

    /** `conflict::resolve` on what the index holds for the path. */
    method Resolved(c: Change) returns (r: Resolution)
      ensures r == Verdict(cfg, View(), c)
    {
      var m := if c.path in meta then meta[c.path] else FileMeta(map[], 0, cfg.localId);
      var local := new VectorClock(m.clock);
      var order := local.Compare(c.clock);
      match order
      case Before => r := Accept;
      case After => r := Reject;
      case Equal => r := Reject;
      case Concurrent =>
        if c.timestamp > m.modified || (c.timestamp == m.modified && Less(cfg.localId, c.peer)) {
          r := Conflict(cfg.localId);
        } else {
          r := Conflict(c.peer);
        }
    }

    method HandleFileChanged(remote: Remote, c: Change, instant: Time)
      requires Valid() && remote.lim.chunkSize > 0 && writeGuard.clock <= instant
      modifies this, writeGuard
      ensures Valid() && View() == ChangeHandled(hash, cfg, old(View()), remote, c)
      ensures writeGuard.history == old(writeGuard.history) + ChangeMarks(cfg, old(View()), remote, c, instant)
    {
      if c.peer == cfg.localId {
        return;
      }
      var verdict := Resolved(c);
      var indices := IndicesOf(c.chunks);
      var origin := Origin(c.clock, c.timestamp, c.peer);
      match verdict
      case Accept =>
        MarkedTwice(writeGuard.history, Mark(c.path, instant), FetchMarks(cfg, disk, remote, c.path, indices, instant));
        writeGuard.MarkPath(c.path, instant);
        FetchAndApply(remote, c.path, indices, origin, instant);
      case Reject =>
      case Conflict(loser) =>
        var backup := ConflictPath(c.path, loser);
        if loser == cfg.localId {
          disk := BackedUp(disk, c.path, backup);
          FetchAndApply(remote, c.path, indices, origin, instant);
        } else {
          FetchAndApply(remote, backup, indices, origin, instant);
        }
    }

    method HandleFileDeleted(t: Tombstone)
      modifies this
      ensures View() == DeleteHandled(hash, cfg, old(View()), t)
    {
      if t.deletedBy == cfg.localId {
        return;
      }
      if Unlinkable(disk, t.path) {
        disk := Delete(disk, t.path);
      }
      var rest, _ := RemoveRecursive(hash, tree, t.path);
      tree := rest;
      meta := meta - {t.path};
      tombstones := tombstones + [t];
    }

    /** A created or modified path is announced exactly when neither guard has seen it lately, it
        is not a conflict backup, and it is a file that is not excluded. */
    method HandleFsChange(path: Path, instant: Time, now: nat) returns (note: Option<Change>)
      requires Valid() && writeGuard.clock <= instant && changeDebounce.clock <= instant
      requires Get(MetaAt(View(), path, cfg.localId).clock, cfg.localId) < U64_MAX
      modifies this, writeGuard, changeDebounce
      ensures Valid()
      ensures note.Some? <==>
        && !RecentlyMarked(old(writeGuard.history), writeGuard.ttl, path, instant)
        && !RecentlyMarked(old(changeDebounce.history), changeDebounce.ttl, path, instant)
        && Announces(cfg, old(disk), path)
      ensures View() == if note.Some? then LocalChanged(hash, cfg, old(View()), path, now) else old(View())
      ensures note.Some? ==> path in meta && note.value == ChangeOf(hash, cfg, View(), path)
      ensures writeGuard.clock <= instant && changeDebounce.clock <= instant
      ensures writeGuard.history == old(writeGuard.history)
      ensures changeDebounce.history ==
        if RecentlyMarked(old(writeGuard.history), writeGuard.ttl, path, instant) then old(changeDebounce.history)
        else Debounced(old(changeDebounce.history), changeDebounce.ttl, [Mark(path, instant)])
    {
      var suppressed := writeGuard.IsSuppressed(path, instant);
      if suppressed {
        return None;
      }
      var passed := changeDebounce.PassesDebounce(path, instant);
      if !passed {
        return None;
      }
      if IsConflictBackup(path) || DataAt(disk, path) == None {
        return None;
      }
      var excluded := IsExcluded(cfg.patterns, path);
      if excluded {
        return None;
      }
      var _ := LocalFileChanged(path, now);
      var chunks := Chunk.Metadata(hash, DataAt(disk, path).value, cfg.lim.chunkSize);
      var digest := Chunk.FileHash(hash, chunks);
      note := Some(Change(path, digest, chunks, meta[path].clock, meta[path].modified, cfg.localId));
    }

    /** One event of a run, with the folder as it is found then. */
    method HandleFsEvent(e: FsEvent, ghost events: seq<FsEvent>, ghost i: nat) returns (note: Option<Change>)
      requires Valid() && writeGuard.clock <= e.instant && changeDebounce.clock <= e.instant
      requires i < |events| && e == events[i] && CountersLeft(View(), cfg.localId, events, |events| - i)
      modifies this, writeGuard, changeDebounce
      ensures Valid() && writeGuard.clock <= e.instant && changeDebounce.clock <= e.instant
      ensures CountersLeft(View(), cfg.localId, events, |events| - i - 1)
      ensures note.Some? <==>
        && !RecentlyMarked(old(writeGuard.history), writeGuard.ttl, e.path, e.instant)
        && !RecentlyMarked(old(changeDebounce.history), changeDebounce.ttl, e.path, e.instant)
        && Announces(cfg, e.disk, e.path)
      ensures note.Some? ==> note.value.path == e.path && note.value.peer == cfg.localId
      ensures writeGuard.history == old(writeGuard.history)
      ensures changeDebounce.history ==
        if RecentlyMarked(old(writeGuard.history), writeGuard.ttl, e.path, e.instant) then old(changeDebounce.history)
        else Debounced(old(changeDebounce.history), changeDebounce.ttl, [Mark(e.path, e.instant)])
    {
      CountersLeftAt(View(), cfg.localId, events, |events| - i, i);
      disk := e.disk;
      ghost var s := View();
      note := HandleFsChange(e.path, e.instant, e.now);
      CountersStep(hash, cfg, s, View(), e.path, e.now, events, |events| - i - 1);
    }

    /** A run of created and modified events, each with the folder as it is found then. What it announces
        is what the two guards let through, so the bound on announcements applies to it. */
    method HandleFsChanges(events: seq<FsEvent>) returns (notes: seq<Change>, marks: seq<Mark>)
      requires Valid() && FsEventsInOrder(events)
      requires NotLaterThan(writeGuard.clock, changeDebounce.clock, events, 0)
      requires CountersLeft(View(), cfg.localId, events, |events|)
      modifies this, writeGuard, changeDebounce
      ensures Valid() && writeGuard.history == old(writeGuard.history)
      ensures marks == Announced(old(changeDebounce.history), changeDebounce.ttl,
        Flagged(cfg, old(writeGuard.history), writeGuard.ttl, events))
      ensures NotesMatch(notes, marks, cfg.localId)
    {
      notes, marks := [], [];
      ghost var flags := Flagged(cfg, writeGuard.history, writeGuard.ttl, events);
      ghost var history0 := changeDebounce.history;
      for i := 0 to |events|
        invariant Valid() && writeGuard.history == old(writeGuard.history)
        invariant NotLaterThan(writeGuard.clock, changeDebounce.clock, events, i)
        invariant CountersLeft(View(), cfg.localId, events, |events| - i)
        invariant AnnouncedSoFar(history0, changeDebounce.history, changeDebounce.ttl, flags, i, marks)
        invariant NotesMatch(notes, marks, cfg.localId)
      {
        var e := events[i];
        FlaggedStep(history0, changeDebounce.history, changeDebounce.ttl, flags, i, marks);
        var note := HandleFsEvent(e, events, i);
        NotLaterStep(writeGuard.clock, changeDebounce.clock, events, i);
        if note.Some? {
          NotesMatchStep(notes, marks, cfg.localId, note.value, Mark(e.path, e.instant));
          notes, marks := notes + [note.value], marks + [Mark(e.path, e.instant)];
        }
      }
      AllAnnounced(history0, changeDebounce.history, changeDebounce.ttl, flags, marks);
    }

    method HandleFsRemoved(path: Path, now: nat) returns (t: Tombstone)
      modifies this
      ensures View() == LocalDeleted(hash, cfg, old(View()), path, now)
      ensures tombstones == old(tombstones) + [t]
    {
      LocalFileDeleted(path, now);
      t := tombstones[|tombstones| - 1];
    }

    /** A removal reported by the watcher: the bridge drops it while the write guard remembers the path. */
    method RemovalEvent(path: Path, instant: Time, now: nat) returns (t: Option<Tombstone>)
      requires Valid() && writeGuard.clock <= instant
      modifies this, writeGuard
      ensures Valid() && writeGuard.clock <= instant && writeGuard.history == old(writeGuard.history)
      ensures t == None <==> RecentlyMarked(old(writeGuard.history), writeGuard.ttl, path, instant)
      ensures View() == RemovalHandled(hash, cfg, old(View()), t == None, path, now)
      ensures t.Some? ==> tombstones == old(tombstones) + [t.value]
    {
      var suppressed := writeGuard.IsSuppressed(path, instant);
      if suppressed {
        return None;
      }
      var removed := HandleFsRemoved(path, now);
      t := Some(removed);
    }

    method FetchNodeRecursive(remote: Remote, path: Path, node: Node, instant: Time, now: nat)
      requires Valid() && remote.lim.chunkSize > 0 && writeGuard.clock <= instant
      modifies this, writeGuard
      ensures Valid() && writeGuard.clock <= instant
      ensures View() == NodeFetched(hash, cfg, old(View()), remote, path, node, now)
      ensures writeGuard.history == old(writeGuard.history)
                + ItemsMarks(hash, cfg, old(View()), remote, NodeItems(path, node), now, instant)
      decreases node
    {
      match node
      case File(_, _, chunks) =>
        OneItemMarks(hash, cfg, View(), remote, Item(path, |chunks|), now, instant);
        FetchAndApply(remote, path, Upto(|chunks|), Origin(map[], now, remote.id), instant);
      case Directory(_, children) =>
        var keys := SortedKeys(children.Keys);
        for i := 0 to |keys|
          invariant Valid() && writeGuard.clock <= instant
          invariant ChildrenSoFar(hash, cfg, old(View()), View(), remote, path, node, keys, i, now,
                      old(writeGuard.history), writeGuard.history, instant)
        {
          ChildStep(hash, cfg, old(View()), View(), remote, path, node, keys, i, now,
            old(writeGuard.history), writeGuard.history, instant);
          FetchNodeRecursive(remote, path + [keys[i]], children[keys[i]], instant, now);
        }
        assert keys[|keys|..] == [];
    }

    /** One entry of the diff: what was added or modified is fetched, unless pulling is switched off. */
    method PullEntry(remote: Remote, e: DiffEntry, instant: Time, now: nat) returns (files: nat)
      requires Valid() && remote.lim.chunkSize > 0 && writeGuard.clock <= instant
      modifies this, writeGuard
      ensures Valid() && writeGuard.clock <= instant
      ensures View() == if cfg.noPull then old(View()) else EntryFetched(hash, cfg, old(View()), remote, e, now)
      ensures files == if cfg.noPull then 0 else MerkleCount.CarriedBy(e)
      ensures writeGuard.history == old(writeGuard.history)
                + if cfg.noPull then [] else ItemsMarks(hash, cfg, old(View()), remote, EntryItems(e), now, instant)
    {
      files := 0;
      if cfg.noPull || e.Removed? {
        return;
      }
      var node := if e.Added? then e.node else e.after;
      FetchNodeRecursive(remote, e.path, node, instant, now);
      files := MerkleCount.CountFiles(node);
    }

    /** Pulls what differs, marks what it fetches, and reports how many files were asked for. */
    method Reconcile(remote: Remote, instant: Time, now: nat) returns (filesSynced: nat)
      requires Valid() && remote.lim.chunkSize > 0 && writeGuard.clock <= instant
      modifies this, writeGuard
      ensures Valid() && View() == Reconciled(hash, cfg, old(View()), remote, now)
      ensures filesSynced == if cfg.noPull then 0 else MerkleCount.Carried(Diff(old(tree), remote.tree, []))
      ensures writeGuard.history == old(writeGuard.history)
                + ItemsMarks(hash, cfg, old(View()), remote, PullItems(cfg, old(tree), remote.tree), now, instant)
    {
      filesSynced := 0;
      if tree.hash == remote.tree.hash {
        return;
      }
      var diffs := DiffRecursive(tree, remote.tree, [], []);
      for i := 0 to |diffs|
        invariant Valid() && writeGuard.clock <= instant
        invariant PulledSoFar(hash, cfg, old(View()), View(), remote, diffs, i, now, filesSynced)
        invariant PullMarkedSoFar(hash, cfg, old(View()), View(), remote, diffs, i, now,
                    old(writeGuard.history), writeGuard.history, instant)
      {
        PullStep(hash, cfg, old(View()), View(), remote, diffs, i, now, filesSynced);
        PullMarkStep(hash, cfg, old(View()), View(), remote, diffs, i, now,
          old(writeGuard.history), writeGuard.history, instant);
        var files := PullEntry(remote, diffs[i], instant, now);
        filesSynced := filesSynced + files;
      }
      PullEnd(hash, cfg, old(View()), View(), remote, diffs, now, filesSynced);
      assert diffs[|diffs|..] == [];
    }
  }

  /** After `i` children the rest leads to where all of them lead, state and marks. */
  ghost predicate ChildrenSoFar(hash: Hasher, cfg: Config, s0: State, s: State, remote: Remote, path: Path, node: Node,
      keys: seq<Name>, i: nat, now: nat, h0: seq<Mark>, h: seq<Mark>, instant: Time)
    requires cfg.lim.chunkSize > 0 && remote.lim.chunkSize > 0 && i <= |keys|
    requires node.Directory? && forall k :: k in keys ==> k in node.children
  {
    && ChildrenFetched(hash, cfg, s, remote, path, node, keys[i..], now)
       == ChildrenFetched(hash, cfg, s0, remote, path, node, keys, now)
    && h + ItemsMarks(hash, cfg, s, remote, ChildrenItems(path, node, keys[i..]), now, instant)
       == h0 + ItemsMarks(hash, cfg, s0, remote, ChildrenItems(path, node, keys), now, instant)
  }

  lemma ChildStep(hash: Hasher, cfg: Config, s0: State, s: State, remote: Remote, path: Path, node: Node,
      keys: seq<Name>, i: nat, now: nat, h0: seq<Mark>, h: seq<Mark>, instant: Time)
    requires cfg.lim.chunkSize > 0 && remote.lim.chunkSize > 0 && i < |keys|
    requires node.Directory? && forall k :: k in keys ==> k in node.children
    requires ChildrenSoFar(hash, cfg, s0, s, remote, path, node, keys, i, now, h0, h, instant)
    ensures var at, child := path + [keys[i]], node.children[keys[i]];
      ChildrenSoFar(hash, cfg, s0, NodeFetched(hash, cfg, s, remote, at, child, now), remote, path, node, keys, i + 1,
        now, h0, h + ItemsMarks(hash, cfg, s, remote, NodeItems(at, child), now, instant), instant)
  {
    var at, child := path + [keys[i]], node.children[keys[i]];
    var rest := ChildrenItems(path, node, keys[i + 1..]);
    assert keys[i..][1..] == keys[i + 1..] && keys[i..][0] == keys[i];
    NodeIsItems(hash, cfg, s, remote, at, child, now);
    ItemsMarksAppend(hash, cfg, s, remote, NodeItems(at, child), rest, now, instant);
    Regrouped(h, ItemsMarks(hash, cfg, s, remote, NodeItems(at, child), now, instant),
      ItemsMarks(hash, cfg, NodeFetched(hash, cfg, s, remote, at, child, now), remote, rest, now, instant));
  }

  lemma Regrouped(a: seq<Mark>, b: seq<Mark>, c: seq<Mark>)
    ensures a + (b + c) == a + b + c
  {
  }

  /** After `i` entries of the diff the rest leads to where all of them lead, state and count. */
  ghost predicate PulledSoFar(hash: Hasher, cfg: Config, s0: State, s: State, remote: Remote, diffs: seq<DiffEntry>,
      i: nat, now: nat, files: nat)
    requires cfg.lim.chunkSize > 0 && remote.lim.chunkSize > 0 && i <= |diffs|
  {
    if cfg.noPull then s == s0 && files == 0
    else
      && EntriesFetched(hash, cfg, s, remote, diffs[i..], now) == EntriesFetched(hash, cfg, s0, remote, diffs, now)
      && files + MerkleCount.Carried(diffs[i..]) == MerkleCount.Carried(diffs)
  }

  lemma PullStep(hash: Hasher, cfg: Config, s0: State, s: State, remote: Remote, diffs: seq<DiffEntry>, i: nat,
      now: nat, files: nat)
    requires cfg.lim.chunkSize > 0 && remote.lim.chunkSize > 0 && i < |diffs|
    requires PulledSoFar(hash, cfg, s0, s, remote, diffs, i, now, files)
    ensures !cfg.noPull ==>
      PulledSoFar(hash, cfg, s0, EntryFetched(hash, cfg, s, remote, diffs[i], now), remote, diffs, i + 1, now,
        files + MerkleCount.CarriedBy(diffs[i]))
  {
    assert diffs[i..][0] == diffs[i] && diffs[i..][1..] == diffs[i + 1..];
  }

  lemma PullEnd(hash: Hasher, cfg: Config, s0: State, s: State, remote: Remote, diffs: seq<DiffEntry>, now: nat,
      files: nat)
    requires cfg.lim.chunkSize > 0 && remote.lim.chunkSize > 0
    requires PulledSoFar(hash, cfg, s0, s, remote, diffs, |diffs|, now, files)
    ensures s == if cfg.noPull then s0 else EntriesFetched(hash, cfg, s0, remote, diffs, now)
    ensures files == if cfg.noPull then 0 else MerkleCount.Carried(diffs)
  {
    assert diffs[|diffs|..] == [];
  }

  /** The marks, in the same way. */
  ghost predicate PullMarkedSoFar(hash: Hasher, cfg: Config, s0: State, s: State, remote: Remote,
      diffs: seq<DiffEntry>, i: nat, now: nat, h0: seq<Mark>, h: seq<Mark>, instant: Time)
    requires cfg.lim.chunkSize > 0 && remote.lim.chunkSize > 0 && i <= |diffs|
  {
    if cfg.noPull then h == h0
    else
      h + ItemsMarks(hash, cfg, s, remote, EntriesItems(diffs[i..]), now, instant)
      == h0 + ItemsMarks(hash, cfg, s0, remote, EntriesItems(diffs), now, instant)
  }

  lemma PullMarkStep(hash: Hasher, cfg: Config, s0: State, s: State, remote: Remote, diffs: seq<DiffEntry>, i: nat,
      now: nat, h0: seq<Mark>, h: seq<Mark>, instant: Time)
    requires cfg.lim.chunkSize > 0 && remote.lim.chunkSize > 0 && i < |diffs|
    requires PullMarkedSoFar(hash, cfg, s0, s, remote, diffs, i, now, h0, h, instant)
    ensures !cfg.noPull ==>
      PullMarkedSoFar(hash, cfg, s0, EntryFetched(hash, cfg, s, remote, diffs[i], now), remote, diffs, i + 1, now, h0,
        h + ItemsMarks(hash, cfg, s, remote, EntryItems(diffs[i]), now, instant), instant)
  {
    var e, rest := diffs[i], EntriesItems(diffs[i + 1..]);
    assert diffs[i..][0] == e && diffs[i..][1..] == diffs[i + 1..];
    EntryIsItems(hash, cfg, s, remote, e, now);
    ItemsMarksAppend(hash, cfg, s, remote, EntryItems(e), rest, now, instant);
    Regrouped(h, ItemsMarks(hash, cfg, s, remote, EntryItems(e), now, instant),
      ItemsMarks(hash, cfg, EntryFetched(hash, cfg, s, remote, e, now), remote, rest, now, instant));
  }

  // ---- Runs of file events ----

  /** A created or modified event: its path, when it is handled, and the folder at that time. */
  datatype FsEvent = FsEvent(path: Path, instant: Time, now: nat, disk: Fs)

  ghost predicate FsEventsInOrder(events: seq<FsEvent>) {
    forall i, j :: 0 <= i < j < |events| ==> events[i].instant <= events[j].instant
  }

  /** The own counters of the paths concerned can go up `n` more times. */
  ghost predicate CountersLeft(s: State, peer: PeerId, events: seq<FsEvent>, n: nat) {
    forall e :: e in events ==> Get(MetaAt(s, e.path, peer).clock, peer) + n <= U64_MAX
  }

  lemma CountersLeftAt(s: State, peer: PeerId, events: seq<FsEvent>, n: nat, i: nat)
    requires CountersLeft(s, peer, events, n) && n > 0 && i < |events|
    ensures Get(MetaAt(s, events[i].path, peer).clock, peer) < U64_MAX
    ensures forall disk :: CountersLeft(s.(disk := disk), peer, events, n)
  {
    assert events[i] in events;
  }

  lemma CountersStep(hash: Hasher, cfg: Config, s: State, t: State, path: Path, now: nat, events: seq<FsEvent>, n: nat)
    requires cfg.lim.chunkSize > 0 && CountersLeft(s, cfg.localId, events, n + 1)
    requires t == s || (DataAt(s.disk, path).Some? && Get(MetaAt(s, path, cfg.localId).clock, cfg.localId) < U64_MAX
                        && t == LocalChanged(hash, cfg, s, path, now))
    ensures CountersLeft(t, cfg.localId, events, n)
  {
  }

  /** Neither guard has been asked about a time after the events from `i` on. */
  ghost predicate NotLaterThan(a: Time, b: Time, events: seq<FsEvent>, i: nat) {
    forall j :: i <= j < |events| ==> a <= events[j].instant && b <= events[j].instant
  }

  lemma NotLaterStep(a: Time, b: Time, events: seq<FsEvent>, i: nat)
    requires FsEventsInOrder(events) && i < |events| && a <= events[i].instant && b <= events[i].instant
    ensures NotLaterThan(a, b, events, i + 1)
  {
  }

  /** One mark for each note, of its path. */
  ghost predicate NotesMatch(notes: seq<Change>, marks: seq<Mark>, peer: PeerId) {
    |notes| == |marks| && forall i :: 0 <= i < |notes| ==> notes[i].path == marks[i].path && notes[i].peer == peer
  }

  lemma NotesMatchStep(notes: seq<Change>, marks: seq<Mark>, peer: PeerId, c: Change, m: Mark)
    requires NotesMatch(notes, marks, peer) && c.path == m.path && c.peer == peer
    ensures NotesMatch(notes + [c], marks + [m], peer)
  {
  }

  /** The events as the guards see them. */
  ghost function Flagged(cfg: Config, marked: seq<Mark>, ttl: nat, events: seq<FsEvent>): seq<Event> {
    seq(|events|, i requires 0 <= i < |events| => FlaggedEvent(cfg, marked, ttl, events[i]))
  }

  ghost function FlaggedEvent(cfg: Config, marked: seq<Mark>, ttl: nat, e: FsEvent): Event {
    Event(Mark(e.path, e.instant), RecentlyMarked(marked, ttl, e.path, e.instant), Announces(cfg, e.disk, e.path))
  }

  /** After `i` events `marks` have been announced, and `history` is what decides about the rest. */
  ghost predicate AnnouncedSoFar(before: seq<Mark>, history: seq<Mark>, ttl: nat, flags: seq<Event>, i: nat,
      marks: seq<Mark>)
    requires i <= |flags|
  {
    Announced(before, ttl, flags) == marks + Announced(history, ttl, flags[i..])
  }

  lemma FlaggedStep(before: seq<Mark>, history: seq<Mark>, ttl: nat, flags: seq<Event>, i: nat, marks: seq<Mark>)
    requires i < |flags| && AnnouncedSoFar(before, history, ttl, flags, i, marks)
    ensures var e := flags[i];
      var announced := !e.guarded && !RecentlyMarked(history, ttl, e.mark.path, e.mark.at) && e.eligible;
      AnnouncedSoFar(before, if e.guarded then history else Debounced(history, ttl, [e.mark]), ttl, flags, i + 1,
        if announced then marks + [e.mark] else marks)
  {
    var e := flags[i];
    assert flags[i..] == [e] + flags[i + 1..];
    AnnouncedStep(history, ttl, e, flags[i + 1..]);
    var later := Announced(if e.guarded then history else Debounced(history, ttl, [e.mark]), ttl, flags[i + 1..]);
    assert marks + ([e.mark] + later) == marks + [e.mark] + later;
    assert marks + ([] + later) == marks + later;
  }

  lemma AllAnnounced(before: seq<Mark>, history: seq<Mark>, ttl: nat, flags: seq<Event>, marks: seq<Mark>)
    requires AnnouncedSoFar(before, history, ttl, flags, |flags|, marks)
    ensures Announced(before, ttl, flags) == marks
  {
    assert flags[|flags|..] == [];
  }
}
