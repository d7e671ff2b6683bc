/** What each handler leaves in a peer's state, and what it leaves alone. */
module Effects {
  import opened ByteStrings
  import opened Merkle
  import opened Disk
  import opened Clock
  import opened ConflictName
  import opened Replica
  import opened Fetching
  import opened IndexItself

  // ---- Changes and announcements ----

  /** A peer's own change, delivered back to it, and a rejected one leave everything as it is. */
  lemma IgnoredChange(hash: Hasher, cfg: Config, s: State, remote: Remote, c: Change)
    requires cfg.lim.chunkSize > 0 && remote.lim.chunkSize > 0
    requires c.peer == cfg.localId || Verdict(cfg, s, c) == Reject
    ensures ChangeHandled(hash, cfg, s, remote, c) == s
  {
  }

  /** What is announced is a file, has no excluded component, and does not carry the backup marker; and
      every such path is announced. */
  lemma AnnouncesIff(cfg: Config, disk: Fs, path: Path)
    ensures Announces(cfg, disk, path) <==>
      && DataAt(disk, path).Some?
      && (forall n :: n in path ==> n !in cfg.patterns)
      && forall i :: 0 <= i <= |JoinPath(path)| - |CONFLICT_MARK| ==> !OccursAt(JoinPath(path), CONFLICT_MARK, i)
  {
    ExcludedIff(cfg.patterns, path);
  }

  // ---- Deletes ----

  ghost predicate OthersKept(s: State, t: State, path: Path) {
    forall q :: q != path ==> (q in t.meta <==> q in s.meta) && (q in s.meta ==> t.meta[q] == s.meta[q])
  }

  /** Nothing of the tree is left at or below a forgotten path. */
  lemma ForgottenTree(hash: Hasher, tree: Node, path: Path, p: Path)
    requires path != [] && path <= p
    ensures Find(Remove(hash, tree, path), p) == None
  {
    if Removable(tree, path) {
      RemoveFind(hash, tree, path, p);
    } else {
      assert p == path + p[|path|..];
      FindAppend(tree, path, p[|path|..]);
    }
  }

  /** A local delete is recorded with the clock that was held for the file, if any; the index forgets the
      path, and the disk is left to the user. */
  lemma LocalDeleteEffect(hash: Hasher, cfg: Config, s: State, path: Path, now: nat)
    ensures var t := LocalDeleted(hash, cfg, s, path, now);
      && t.tombstones == s.tombstones
           + [Tombstone(path, cfg.localId, if path in s.meta then s.meta[path].clock else map[], now)]
      && t.disk == s.disk && path !in t.meta && OthersKept(s, t, path)
      && (path != [] ==> forall p :: path <= p ==> Find(t.tree, p) == None)
  {
    if path != [] {
      forall p | path <= p
        ensures Find(Remove(hash, s.tree, path), p) == None
      {
        ForgottenTree(hash, s.tree, path, p);
      }
    }
  }

  /** A remote delete is recorded as it came; the index forgets the path, and afterwards nothing is there
      unless it was a folder or a link that leads nowhere. One's own delete is ignored. */
  lemma RemoteDeleteEffect(hash: Hasher, cfg: Config, s: State, t: Tombstone)
    requires t.path != []
    ensures t.deletedBy == cfg.localId ==> DeleteHandled(hash, cfg, s, t) == s
    ensures t.deletedBy != cfg.localId ==>
      var r, entry := DeleteHandled(hash, cfg, s, t), Lookup(s.disk, t.path);
      && r.tombstones == s.tombstones + [t] && t.path !in r.meta && OthersKept(s, r, t.path)
      && (forall p :: t.path <= p ==> Find(r.tree, p) == None)
      && (Lookup(r.disk, t.path) == None <==> entry == None || entry.value.Regular? || entry.value == Symlink(true))
      && forall q :: q != t.path ==> DataAt(r.disk, q) == DataAt(s.disk, q)
  {
    if t.deletedBy != cfg.localId {
      forall p | t.path <= p
        ensures Find(Remove(hash, s.tree, t.path), p) == None
      {
        ForgottenTree(hash, s.tree, t.path, p);
      }
      if Unlinkable(s.disk, t.path) {
        DeleteGone(s.disk, t.path, t.path);
        forall q | q != t.path
          ensures DataAt(Delete(s.disk, t.path), q) == DataAt(s.disk, q)
        {
          UnlinkData(s.disk, t.path, q);
        }
      }
    }
  }

  // ---- Pulls ----

  ghost predicate Stamped(s: State, path: Path, clock: Counters, now: nat, author: PeerId) {
    path in s.meta && s.meta[path] == FileMeta(clock, now, author)
  }

  function HeldClock(s: State, path: Path): Counters {
    if path in s.meta then s.meta[path].clock else map[]
  }

  /** Fetching one item of a pull stamps its path, keeping the clock held for it. */
  lemma ItemStamps(hash: Hasher, cfg: Config, s: State, remote: Remote, it: Item, now: nat)
    requires cfg.lim.chunkSize > 0 && remote.lim.chunkSize > 0
    ensures var t := ItemFetched(hash, cfg, s, remote, it, now);
      && OthersKept(s, t, it.path)
      && if Stores(cfg, s.disk, remote, it.path, Upto(it.chunks))
         then Stamped(t, it.path, HeldClock(s, it.path), now, remote.id)
         else t == s
  {
    assert Merged(HeldClock(s, it.path), map[]) == HeldClock(s, it.path);
  }

  lemma {:induction false} StampStays(hash: Hasher, cfg: Config, s: State, remote: Remote, items: seq<Item>, now: nat,
      path: Path, clock: Counters)
    requires cfg.lim.chunkSize > 0 && remote.lim.chunkSize > 0 && Stamped(s, path, clock, now, remote.id)
    ensures Stamped(ItemsFetched(hash, cfg, s, remote, items, now), path, clock, now, remote.id)
    decreases items
  {
    if items != [] {
      ItemStamps(hash, cfg, s, remote, items[0], now);
      StampStays(hash, cfg, ItemFetched(hash, cfg, s, remote, items[0], now), remote, items[1..], now, path, clock);
    }
  }

  lemma {:induction false} ItemsStamp(hash: Hasher, cfg: Config, s: State, remote: Remote, items: seq<Item>, now: nat,
      at: Item)
    requires cfg.lim.chunkSize > 0 && remote.lim.chunkSize > 0 && AllUnrelated(items) && at in items
    requires Stores(cfg, s.disk, remote, at.path, Upto(at.chunks))
    ensures Stamped(ItemsFetched(hash, cfg, s, remote, items, now), at.path, HeldClock(s, at.path), now, remote.id)
    decreases items
  {
    var it, rest := items[0], items[1..];
    var t := ItemFetched(hash, cfg, s, remote, it, now);
    ItemStamps(hash, cfg, s, remote, it, now);
    if Stores(cfg, s.disk, remote, it.path, Upto(it.chunks)) {
      if it.path == at.path {
        StampStays(hash, cfg, t, remote, rest, now, at.path, HeldClock(s, at.path));
      } else {
        var data := FetchedData(cfg, s.disk, remote, it.path, Upto(it.chunks)).value;
        StoresAfter(cfg, s.disk, remote, it.path, data, at);
        ItemsStamp(hash, cfg, t, remote, rest, now, at);
      }
    } else {
      ItemsStamp(hash, cfg, t, remote, rest, now, at);
    }
  }

  lemma {:induction false} ItemsLeaveMeta(hash: Hasher, cfg: Config, s: State, remote: Remote, items: seq<Item>,
      now: nat, path: Path)
    requires cfg.lim.chunkSize > 0 && remote.lim.chunkSize > 0 && forall it :: it in items ==> it.path != path
    ensures var t := ItemsFetched(hash, cfg, s, remote, items, now);
      (path in t.meta <==> path in s.meta) && (path in s.meta ==> t.meta[path] == s.meta[path])
    decreases items
  {
    if items != [] {
      ItemStamps(hash, cfg, s, remote, items[0], now);
      ItemsLeaveMeta(hash, cfg, ItemFetched(hash, cfg, s, remote, items[0], now), remote, items[1..], now, path);
    }
  }

  /** After a pull every file that was asked for and could be stored carries the time of the pull and the
      other peer as its author, under the clock held before; the metadata of every path not asked for is
      what it was. With pulling switched off nothing happens. */
  lemma PullStamps(hash: Hasher, cfg: Config, s: State, remote: Remote, now: nat)
    requires cfg.lim.chunkSize > 0 && remote.lim.chunkSize > 0
    ensures cfg.noPull ==> Reconciled(hash, cfg, s, remote, now) == s
    ensures var t, items := Reconciled(hash, cfg, s, remote, now), PullItems(cfg, s.tree, remote.tree);
      && (forall it :: it in items && Stores(cfg, s.disk, remote, it.path, Upto(it.chunks)) ==>
            Stamped(t, it.path, HeldClock(s, it.path), now, remote.id))
      && forall path :: (forall it :: it in items ==> it.path != path) ==>
           (path in t.meta <==> path in s.meta) && (path in s.meta ==> t.meta[path] == s.meta[path])
  {
    var items := PullItems(cfg, s.tree, remote.tree);
    PullIsItems(hash, cfg, s, remote, now);
    PullItemsUnrelated(cfg, s.tree, remote.tree);
    forall it | it in items && Stores(cfg, s.disk, remote, it.path, Upto(it.chunks))
      ensures Stamped(Reconciled(hash, cfg, s, remote, now), it.path, HeldClock(s, it.path), now, remote.id)
    {
      ItemsStamp(hash, cfg, s, remote, items, now, it);
    }
    forall path | forall it :: it in items ==> it.path != path
      ensures var t := Reconciled(hash, cfg, s, remote, now);
        (path in t.meta <==> path in s.meta) && (path in s.meta ==> t.meta[path] == s.meta[path])
    {
      ItemsLeaveMeta(hash, cfg, s, remote, items, now, path);
    }
  }
}
