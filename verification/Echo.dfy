/** The engine's own writes are marked, so that the events they cause are not announced. */
module Echo {
  import opened ByteStrings
  import opened Merkle
  import opened Disk
  import opened Clock
  import opened ConflictName
  import opened Replica
  import opened Fetching
  import opened Debounce

  /** The mark a fetch leaves before it writes. */
  function FetchMarks(cfg: Config, disk: Fs, remote: Remote, path: Path, indices: seq<nat>, instant: Time): seq<Mark>
    requires remote.lim.chunkSize > 0
  {
    if FetchedData(cfg, disk, remote, path, indices).Some? then [Mark(path, instant)] else []
  }

  /** The marks handling a change leaves; an accepted one is marked before its download as well. */
  function ChangeMarks(cfg: Config, s: State, remote: Remote, c: Change, instant: Time): seq<Mark>
    requires remote.lim.chunkSize > 0
  {
    if c.peer == cfg.localId then []
    else
      match Verdict(cfg, s, c)
      case Accept => [Mark(c.path, instant)] + FetchMarks(cfg, s.disk, remote, c.path, IndicesOf(c.chunks), instant)
      case Reject => []
      case Conflict(loser) =>
        var backup := ConflictPath(c.path, loser);
        if loser == cfg.localId then
          FetchMarks(cfg, BackedUp(s.disk, c.path, backup), remote, c.path, IndicesOf(c.chunks), instant)
        else FetchMarks(cfg, s.disk, remote, backup, IndicesOf(c.chunks), instant)
  }

  lemma MarkedTwice(history: seq<Mark>, m: Mark, more: seq<Mark>)
    ensures history + [m] + more == history + ([m] + more)
  {
  }

  /** Every file that changed was marked, except for conflict backups. */
  ghost predicate ChangesMarked(before: Fs, after: Fs, was: seq<Mark>, now: seq<Mark>, instant: Time) {
    was <= now && forall q :: DataAt(after, q) != DataAt(before, q) ==> Mark(q, instant) in now || IsConflictBackup(q)
  }

  lemma ChangesMarkedTransitive(a: Fs, b: Fs, c: Fs, was: seq<Mark>, mid: seq<Mark>, now: seq<Mark>, instant: Time)
    requires ChangesMarked(a, b, was, mid, instant) && ChangesMarked(b, c, mid, now, instant)
    ensures ChangesMarked(a, c, was, now, instant)
  {
    forall q | DataAt(c, q) != DataAt(a, q)
      ensures Mark(q, instant) in now || IsConflictBackup(q)
    {
      if DataAt(b, q) != DataAt(a, q) && Mark(q, instant) in mid {
        assert Mark(q, instant) in now;
      }
    }
  }

  lemma ChangesMarkedJoin(a: Fs, b: Fs, c: Fs, was: seq<Mark>, marks: seq<Mark>, more: seq<Mark>, instant: Time)
    requires ChangesMarked(a, b, was, was + marks, instant)
    requires ChangesMarked(b, c, was + marks, was + marks + more, instant)
    ensures ChangesMarked(a, c, was, was + (marks + more), instant)
  {
    assert was + marks + more == was + (marks + more);
    ChangesMarkedTransitive(a, b, c, was, was + marks, was + (marks + more), instant);
  }

  lemma FetchMarked(hash: Hasher, cfg: Config, s: State, remote: Remote, path: Path, indices: seq<nat>, origin: Origin,
      was: seq<Mark>, instant: Time)
    requires cfg.lim.chunkSize > 0 && remote.lim.chunkSize > 0
    ensures ChangesMarked(s.disk, Fetched(hash, cfg, s, remote, path, indices, origin).disk,
                          was, was + FetchMarks(cfg, s.disk, remote, path, indices, instant), instant)
  {
    var t := Fetched(hash, cfg, s, remote, path, indices, origin);
    var now := was + FetchMarks(cfg, s.disk, remote, path, indices, instant);
    forall q | DataAt(t.disk, q) != DataAt(s.disk, q)
      ensures Mark(q, instant) in now
    {
      WriteData(s.disk, path, FetchedData(cfg, s.disk, remote, path, indices).value, q);
      assert Mark(path, instant) in [Mark(path, instant)];
    }
  }

  lemma BackupMarked(disk: Fs, path: Path, peer: PeerId, was: seq<Mark>, instant: Time)
    ensures ChangesMarked(disk, BackedUp(disk, path, ConflictPath(path, peer)), was, was, instant)
  {
    var backup := ConflictPath(path, peer);
    ConflictPathIsBackup(path, peer);
    if CanBackUp(disk, path, backup) {
      forall q
        ensures q != backup ==> DataAt(BackedUp(disk, path, backup), q) == DataAt(disk, q)
      {
        WriteData(disk, backup, DataAt(disk, path).value, q);
      }
    }
  }

  /** Handling a change marks every file it changes, apart from the copy of a losing version. */
  lemma ChangeMarked(hash: Hasher, cfg: Config, s: State, remote: Remote, c: Change, was: seq<Mark>, instant: Time)
    requires cfg.lim.chunkSize > 0 && remote.lim.chunkSize > 0
    ensures ChangesMarked(s.disk, ChangeHandled(hash, cfg, s, remote, c).disk,
                          was, was + ChangeMarks(cfg, s, remote, c, instant), instant)
  {
    var origin, indices := Origin(c.clock, c.timestamp, c.peer), IndicesOf(c.chunks);
    if c.peer != cfg.localId {
      match Verdict(cfg, s, c)
      case Accept =>
        FetchMarked(hash, cfg, s, remote, c.path, indices, origin, was + [Mark(c.path, instant)], instant);
        MarkedTwice(was, Mark(c.path, instant), FetchMarks(cfg, s.disk, remote, c.path, indices, instant));
      case Reject =>
      case Conflict(loser) =>
        var backup := ConflictPath(c.path, loser);
        if loser == cfg.localId {
          var s1 := s.(disk := BackedUp(s.disk, c.path, backup));
          BackupMarked(s.disk, c.path, loser, was, instant);
          FetchMarked(hash, cfg, s1, remote, c.path, indices, origin, was, instant);
          ChangesMarkedTransitive(s.disk, s1.disk, ChangeHandled(hash, cfg, s, remote, c).disk,
            was, was, was + ChangeMarks(cfg, s, remote, c, instant), instant);
        } else {
          FetchMarked(hash, cfg, s, remote, backup, indices, origin, was, instant);
        }
    }
  }

  // ---- Nothing else is marked ----

  /** The path a change that is not rejected makes a peer ask for. */
  function AskedPath(cfg: Config, s: State, c: Change): Path {
    match Verdict(cfg, s, c)
    case Conflict(loser) => if loser == cfg.localId then c.path else ConflictPath(c.path, loser)
    case _ => c.path
  }

  /** The marks left are those of the moment, and exactly: the path of an accepted change, and the path
      asked for after a conflict if the download gave data. */
  lemma ChangeMarksIff(cfg: Config, s: State, remote: Remote, c: Change, instant: Time, m: Mark)
    requires remote.lim.chunkSize > 0
    ensures m in ChangeMarks(cfg, s, remote, c, instant) <==>
      && c.peer != cfg.localId && m == Mark(AskedPath(cfg, s, c), instant)
      && (Verdict(cfg, s, c) == Accept
          || (Verdict(cfg, s, c).Conflict?
              && FetchedData(cfg, s.disk, remote, m.path, IndicesOf(c.chunks)).Some?))
  {
    if Verdict(cfg, s, c) == Conflict(cfg.localId) {
      var backup := ConflictPath(c.path, cfg.localId);
      DownloadAnywhere(cfg, BackedUp(s.disk, c.path, backup), s.disk, remote, c.path, IndicesOf(c.chunks));
    }
  }

  /** So a change that is rejected, or the peer's own, does not hold back any later event. */
  lemma IgnoredChangeUnmarked(cfg: Config, s: State, remote: Remote, c: Change, was: seq<Mark>, ttl: nat,
      instant: Time, path: Path, later: Time)
    requires remote.lim.chunkSize > 0 && (c.peer == cfg.localId || Verdict(cfg, s, c) == Reject)
    ensures RecentlyMarked(was + ChangeMarks(cfg, s, remote, c, instant), ttl, path, later) <==>
      RecentlyMarked(was, ttl, path, later)
  {
    assert ChangeMarks(cfg, s, remote, c, instant) == [];
    assert was + [] == was;
  }

  // ---- Marks of a pull ----

  /** The marks left by fetching a list of files. */
  function ItemsMarks(hash: Hasher, cfg: Config, s: State, remote: Remote, items: seq<Item>, now: nat,
      instant: Time): seq<Mark>
    requires cfg.lim.chunkSize > 0 && remote.lim.chunkSize > 0
    decreases items
  {
    if items == [] then []
    else
      FetchMarks(cfg, s.disk, remote, items[0].path, Upto(items[0].chunks), instant)
      + ItemsMarks(hash, cfg, ItemFetched(hash, cfg, s, remote, items[0], now), remote, items[1..], now, instant)
  }

  lemma {:induction false} ItemsMarksAppend(hash: Hasher, cfg: Config, s: State, remote: Remote, a: seq<Item>,
      b: seq<Item>, now: nat, instant: Time)
    requires cfg.lim.chunkSize > 0 && remote.lim.chunkSize > 0
    ensures ItemsMarks(hash, cfg, s, remote, a + b, now, instant)
         == ItemsMarks(hash, cfg, s, remote, a, now, instant)
            + ItemsMarks(hash, cfg, ItemsFetched(hash, cfg, s, remote, a, now), remote, b, now, instant)
    decreases a
  {
    if a == [] {
      assert a + b == b;
    } else {
      assert (a + b)[1..] == a[1..] + b;
      ItemsMarksAppend(hash, cfg, ItemFetched(hash, cfg, s, remote, a[0], now), remote, a[1..], b, now, instant);
    }
  }

  lemma OneItemMarks(hash: Hasher, cfg: Config, s: State, remote: Remote, it: Item, now: nat, instant: Time)
    requires cfg.lim.chunkSize > 0 && remote.lim.chunkSize > 0
    ensures ItemsMarks(hash, cfg, s, remote, [it], now, instant)
         == FetchMarks(cfg, s.disk, remote, it.path, Upto(it.chunks), instant)
  {
    assert [it][1..] == [];
    assert ItemsMarks(hash, cfg, ItemFetched(hash, cfg, s, remote, it, now), remote, [], now, instant) == [];
  }

  /** Fetching a list of files marks every file it changes. */
  lemma {:induction false} ItemsMarked(hash: Hasher, cfg: Config, s: State, remote: Remote, items: seq<Item>, now: nat,
      was: seq<Mark>, instant: Time)
    requires cfg.lim.chunkSize > 0 && remote.lim.chunkSize > 0
    ensures ChangesMarked(s.disk, ItemsFetched(hash, cfg, s, remote, items, now).disk,
                          was, was + ItemsMarks(hash, cfg, s, remote, items, now, instant), instant)
    decreases items
  {
    if items != [] {
      var it, rest := items[0], items[1..];
      var t := ItemFetched(hash, cfg, s, remote, it, now);
      var marks := FetchMarks(cfg, s.disk, remote, it.path, Upto(it.chunks), instant);
      var more := ItemsMarks(hash, cfg, t, remote, rest, now, instant);
      FetchMarked(hash, cfg, s, remote, it.path, Upto(it.chunks), Origin(map[], now, remote.id), was, instant);
      ItemsMarked(hash, cfg, t, remote, rest, now, was + marks, instant);
      ChangesMarkedJoin(s.disk, t.disk, ItemsFetched(hash, cfg, t, remote, rest, now).disk, was, marks, more, instant);
    }
  }

  /** The download of the item gives data. */
  predicate Arrives(cfg: Config, disk: Fs, remote: Remote, it: Item)
    requires remote.lim.chunkSize > 0
  {
    FetchedData(cfg, disk, remote, it.path, Upto(it.chunks)).Some?
  }

  /** And no other: the marks are those of the moment whose path was asked for and gave data. */
  lemma {:induction false} ItemsMarksIff(hash: Hasher, cfg: Config, s: State, remote: Remote, items: seq<Item>,
      now: nat, instant: Time, m: Mark)
    requires cfg.lim.chunkSize > 0 && remote.lim.chunkSize > 0
    ensures m in ItemsMarks(hash, cfg, s, remote, items, now, instant) <==>
      m.at == instant && exists it :: it in items && it.path == m.path && Arrives(cfg, s.disk, remote, it)
    decreases items
  {
    if items != [] {
      var it, rest := items[0], items[1..];
      var t := ItemFetched(hash, cfg, s, remote, it, now);
      ItemsMarksIff(hash, cfg, t, remote, rest, now, instant, m);
      forall other | other in rest
        ensures Arrives(cfg, t.disk, remote, other) <==> Arrives(cfg, s.disk, remote, other)
      {
        DownloadAnywhere(cfg, t.disk, s.disk, remote, other.path, Upto(other.chunks));
      }
      assert forall other :: other in items <==> other == it || other in rest;
    }
  }

  // ---- No echo ----

  /** An event for a file the engine has just written is suppressed or not announced, as long as the
      guard's time has not run out, whatever has been marked since. */
  lemma NoEcho(cfg: Config, before: Fs, after: Fs, was: seq<Mark>, now: seq<Mark>, instant: Time,
      history: seq<Mark>, ttl: nat, path: Path, later: Time, disk: Fs)
    requires ChangesMarked(before, after, was, now, instant) && DataAt(after, path) != DataAt(before, path)
    requires now <= history && later < instant + ttl
    ensures RecentlyMarked(history, ttl, path, later) || !Announces(cfg, disk, path)
  {
    if !IsConflictBackup(path) {
      var i :| 0 <= i < |now| && now[i] == Mark(path, instant);
      assert history[i] == now[i];
    }
  }

  // ---- Removals echo ----

  /** A removal reported by the watcher is dropped while the write guard remembers the path; otherwise it
      is a local delete. */
  function RemovalHandled(hash: Hasher, cfg: Config, s: State, suppressed: bool, path: Path, now: nat): State {
    if suppressed then s else LocalDeleted(hash, cfg, s, path, now)
  }

  /** Unlinking a file for a remote delete leaves no mark. Unless the path was downloaded a moment before,
      the event it causes is therefore announced as a delete of this peer's own. */
  lemma RemoteDeleteEchoesIff(hash: Hasher, cfg: Config, s: State, t: Tombstone, history: seq<Mark>, ttl: nat,
      later: Time, now: nat)
    requires t.deletedBy != cfg.localId
    ensures var deleted := DeleteHandled(hash, cfg, s, t);
      var after := RemovalHandled(hash, cfg, deleted, RecentlyMarked(history, ttl, t.path, later), t.path, now);
      && deleted.tombstones <= after.tombstones
      && after.tombstones[|deleted.tombstones|..] ==
         if RecentlyMarked(history, ttl, t.path, later) then [] else [Tombstone(t.path, cfg.localId, map[], now)]
  {
  }

  /** What a peer does about the tombstones that reach it. */
  function DeletesHandled(hash: Hasher, cfg: Config, s: State, ts: seq<Tombstone>): State
    decreases ts
  {
    if ts == [] then s else DeletesHandled(hash, cfg, DeleteHandled(hash, cfg, s, ts[0]), ts[1..])
  }

  /** A peer `q` deletes a file, announces it and creates the file anew; `p` handles the delete. Whatever
      `p` then announces about it leaves the new file alone if and only if `p`'s guard remembered the path. */
  lemma RecreatedFileSurvivesIff(hash: Hasher, cfgP: Config, p: State, cfgQ: Config, q: State, t: Tombstone,
      history: seq<Mark>, ttl: nat, later: Time, now: nat)
    requires t.deletedBy == cfgQ.localId != cfgP.localId && DataAt(q.disk, t.path).Some? && t.path != []
    ensures var deleted := DeleteHandled(hash, cfgP, p, t);
      var after := RemovalHandled(hash, cfgP, deleted, RecentlyMarked(history, ttl, t.path, later), t.path, now);
      |deleted.tombstones| <= |after.tombstones|
      && var r := DeletesHandled(hash, cfgQ, q, after.tombstones[|deleted.tombstones|..]);
        && (DataAt(r.disk, t.path) == DataAt(q.disk, t.path) <==> RecentlyMarked(history, ttl, t.path, later))
        && (!RecentlyMarked(history, ttl, t.path, later) ==> DataAt(r.disk, t.path) == None && t.path !in r.meta)
  {
    RemoteDeleteEchoesIff(hash, cfgP, p, t, history, ttl, later, now);
    var echo := Tombstone(t.path, cfgP.localId, map[], now);
    assert [echo][1..] == [];
    assert DeletesHandled(hash, cfgQ, DeleteHandled(hash, cfgQ, q, echo), []) == DeleteHandled(hash, cfgQ, q, echo);
    UnlinkData(q.disk, t.path, t.path);
  }
}
