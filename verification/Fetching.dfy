/** One fetch, and a pull as a list of fetches. */
module Fetching {
  import opened ByteStrings
  import opened Merkle
  import opened MerkleDiff
  import opened Disk
  import opened Replica
  import opened Transfer
  import MerkleReport

  // ---- One fetch ----

  /** The chunks arrive, fit the limits and can be written. */
  predicate Stores(cfg: Config, disk: Fs, remote: Remote, path: Path, indices: seq<nat>)
    requires remote.lim.chunkSize > 0
  {
    FetchedData(cfg, disk, remote, path, indices).Some? && Writable(disk, path)
  }

  /** A fetch changes the data at its own path only. */
  lemma FetchElsewhere(hash: Hasher, cfg: Config, s: State, remote: Remote, path: Path, indices: seq<nat>,
      origin: Origin, q: Path)
    requires cfg.lim.chunkSize > 0 && remote.lim.chunkSize > 0 && q != path
    ensures DataAt(Fetched(hash, cfg, s, remote, path, indices, origin).disk, q) == DataAt(s.disk, q)
  {
    var data := FetchedData(cfg, s.disk, remote, path, indices);
    if data.Some? && Writable(s.disk, path) {
      WriteData(s.disk, path, data.value, q);
    }
  }

  /** Whether a download fails does not depend on the local copy. */
  lemma DownloadAnywhere(cfg: Config, a: Fs, b: Fs, remote: Remote, path: Path, indices: seq<nat>)
    requires remote.lim.chunkSize > 0
    ensures FetchedData(cfg, a, remote, path, indices).Some? <==> FetchedData(cfg, b, remote, path, indices).Some?
  {
    if DataAt(remote.disk, path).Some? {
      var served := Serve(remote.lim, DataAt(remote.disk, path).value, indices);
      PatchFailsIff(cfg.lim, if DataAt(a, path).Some? then DataAt(a, path).value else [], served);
      PatchFailsIff(cfg.lim, if DataAt(b, path).Some? then DataAt(b, path).value else [], served);
    }
  }

  // ---- A pull as a list ----

  /** A file asked for, and how many chunks of it. */
  datatype Item = Item(path: Path, chunks: nat)

  function NodeItems(path: Path, node: Node): seq<Item>
    decreases node, 1, 0
  {
    match node
    case File(_, _, chunks) => [Item(path, |chunks|)]
    case Directory(_, children) => ChildrenItems(path, node, SortedKeys(children.Keys))
  }

  function ChildrenItems(path: Path, node: Node, keys: seq<Name>): seq<Item>
    requires node.Directory? && forall k :: k in keys ==> k in node.children
    decreases node, 0, |keys|
  {
    if keys == [] then []
    else NodeItems(path + [keys[0]], node.children[keys[0]]) + ChildrenItems(path, node, keys[1..])
  }

  function EntryItems(e: DiffEntry): seq<Item> {
    match e
    case Added(path, node) => NodeItems(path, node)
    case Modified(path, _, node) => NodeItems(path, node)
    case Removed(_, _) => []
  }

  function EntriesItems(es: seq<DiffEntry>): seq<Item> {
    if es == [] then [] else EntryItems(es[0]) + EntriesItems(es[1..])
  }

  /** What a pull asks for, in order. */
  function PullItems(cfg: Config, tree: Node, remote: Node): seq<Item> {
    if cfg.noPull then [] else EntriesItems(Diff(tree, remote, []))
  }

  function ItemFetched(hash: Hasher, cfg: Config, s: State, remote: Remote, it: Item, now: nat): State
    requires cfg.lim.chunkSize > 0 && remote.lim.chunkSize > 0
  {
    Fetched(hash, cfg, s, remote, it.path, Upto(it.chunks), Origin(map[], now, remote.id))
  }

  function ItemsFetched(hash: Hasher, cfg: Config, s: State, remote: Remote, items: seq<Item>, now: nat): State
    requires cfg.lim.chunkSize > 0 && remote.lim.chunkSize > 0
    decreases items
  {
    if items == [] then s
    else ItemsFetched(hash, cfg, ItemFetched(hash, cfg, s, remote, items[0], now), remote, items[1..], now)
  }

  lemma {:induction false} ItemsAppend(hash: Hasher, cfg: Config, s: State, remote: Remote, a: seq<Item>, b: seq<Item>,
      now: nat)
    requires cfg.lim.chunkSize > 0 && remote.lim.chunkSize > 0
    ensures ItemsFetched(hash, cfg, s, remote, a + b, now)
         == ItemsFetched(hash, cfg, ItemsFetched(hash, cfg, s, remote, a, now), remote, b, now)
    decreases a
  {
    if a == [] {
      assert a + b == b;
    } else {
      assert (a + b)[1..] == a[1..] + b;
      ItemsAppend(hash, cfg, ItemFetched(hash, cfg, s, remote, a[0], now), remote, a[1..], b, now);
    }
  }

  lemma OneItem(hash: Hasher, cfg: Config, s: State, remote: Remote, it: Item, now: nat)
    requires cfg.lim.chunkSize > 0 && remote.lim.chunkSize > 0
    ensures ItemsFetched(hash, cfg, s, remote, [it], now) == ItemFetched(hash, cfg, s, remote, it, now)
  {
    assert [it][1..] == [];
    assert ItemsFetched(hash, cfg, ItemFetched(hash, cfg, s, remote, it, now), remote, [], now)
        == ItemFetched(hash, cfg, s, remote, it, now);
  }

  lemma {:induction false} NodeIsItems(hash: Hasher, cfg: Config, s: State, remote: Remote, path: Path, node: Node,
      now: nat)
    requires cfg.lim.chunkSize > 0 && remote.lim.chunkSize > 0
    ensures NodeFetched(hash, cfg, s, remote, path, node, now)
         == ItemsFetched(hash, cfg, s, remote, NodeItems(path, node), now)
    decreases node, 1, 0
  {
    match node
    case File(_, _, chunks) => OneItem(hash, cfg, s, remote, Item(path, |chunks|), now);
    case Directory(_, children) =>
      ChildrenAreItems(hash, cfg, s, remote, path, node, SortedKeys(children.Keys), now);
  }

  lemma {:induction false} ChildrenAreItems(hash: Hasher, cfg: Config, s: State, remote: Remote, path: Path, node: Node,
      keys: seq<Name>, now: nat)
    requires cfg.lim.chunkSize > 0 && remote.lim.chunkSize > 0
    requires node.Directory? && forall k :: k in keys ==> k in node.children
    ensures ChildrenFetched(hash, cfg, s, remote, path, node, keys, now)
         == ItemsFetched(hash, cfg, s, remote, ChildrenItems(path, node, keys), now)
    decreases node, 0, |keys|
  {
    if keys != [] {
      var child, at := node.children[keys[0]], path + [keys[0]];
      NodeIsItems(hash, cfg, s, remote, at, child, now);
      ChildrenAreItems(hash, cfg, NodeFetched(hash, cfg, s, remote, at, child, now), remote, path, node, keys[1..],
        now);
      ItemsAppend(hash, cfg, s, remote, NodeItems(at, child), ChildrenItems(path, node, keys[1..]), now);
    }
  }

  lemma EntryIsItems(hash: Hasher, cfg: Config, s: State, remote: Remote, e: DiffEntry, now: nat)
    requires cfg.lim.chunkSize > 0 && remote.lim.chunkSize > 0
    ensures EntryFetched(hash, cfg, s, remote, e, now) == ItemsFetched(hash, cfg, s, remote, EntryItems(e), now)
  {
    match e
    case Added(path, node) => NodeIsItems(hash, cfg, s, remote, path, node, now);
    case Modified(path, _, node) => NodeIsItems(hash, cfg, s, remote, path, node, now);
    case Removed(_, _) =>
  }

  lemma {:induction false} EntriesAreItems(hash: Hasher, cfg: Config, s: State, remote: Remote, es: seq<DiffEntry>,
      now: nat)
    requires cfg.lim.chunkSize > 0 && remote.lim.chunkSize > 0
    ensures EntriesFetched(hash, cfg, s, remote, es, now)
         == ItemsFetched(hash, cfg, s, remote, EntriesItems(es), now)
    decreases es
  {
    if es != [] {
      EntryIsItems(hash, cfg, s, remote, es[0], now);
      EntriesAreItems(hash, cfg, EntryFetched(hash, cfg, s, remote, es[0], now), remote, es[1..], now);
      ItemsAppend(hash, cfg, s, remote, EntryItems(es[0]), EntriesItems(es[1..]), now);
    }
  }

  /** A pull fetches its items one after the other. */
  lemma PullIsItems(hash: Hasher, cfg: Config, s: State, remote: Remote, now: nat)
    requires cfg.lim.chunkSize > 0 && remote.lim.chunkSize > 0
    ensures Reconciled(hash, cfg, s, remote, now)
         == ItemsFetched(hash, cfg, s, remote, PullItems(cfg, s.tree, remote.tree), now)
  {
    EntriesAreItems(hash, cfg, s, remote, Diff(s.tree, remote.tree, []), now);
  }

  // ---- Every item is a file of the other tree ----

  /** The node an entry carries is what the new tree has at the entry's path. */
  ghost predicate FromRemote(tree: Node, e: DiffEntry) {
    match e
    case Added(path, node) => Find(tree, path) == Some(node)
    case Modified(path, _, node) => Find(tree, path) == Some(node)
    case Removed(_, _) => true
  }

  lemma DiffFromRemote(was: Node, now: Node, e: DiffEntry)
    requires e in Diff(was, now, [])
    ensures FromRemote(now, e)
  {
    var p := MerkleReport.DiffSound(was, now, [], e);
    assert [] + p == p;
  }

  lemma {:induction false} NodeItemIsFile(tree: Node, path: Path, node: Node, it: Item)
    requires Find(tree, path) == Some(node) && it in NodeItems(path, node)
    ensures IsFile(Find(tree, it.path))
    decreases node, 1, 0
  {
    if node.Directory? {
      ChildItemIsFile(tree, path, node, SortedKeys(node.children.Keys), it);
    }
  }

  lemma {:induction false} ChildItemIsFile(tree: Node, path: Path, node: Node, keys: seq<Name>, it: Item)
    requires Find(tree, path) == Some(node) && node.Directory? && forall k :: k in keys ==> k in node.children
    requires it in ChildrenItems(path, node, keys)
    ensures IsFile(Find(tree, it.path))
    decreases node, 0, |keys|
  {
    var child := node.children[keys[0]];
    if it in NodeItems(path + [keys[0]], child) {
      FindAppend(tree, path, [keys[0]]);
      var last: Path := [keys[0]];
      assert last[1..] == [];
      NodeItemIsFile(tree, path + [keys[0]], child, it);
    } else {
      ChildItemIsFile(tree, path, node, keys[1..], it);
    }
  }

  lemma {:induction false} EntryOfItem(es: seq<DiffEntry>, it: Item) returns (e: DiffEntry)
    requires it in EntriesItems(es)
    ensures e in es && it in EntryItems(e)
  {
    if it in EntryItems(es[0]) {
      e := es[0];
    } else {
      e := EntryOfItem(es[1..], it);
    }
  }

  lemma PullItemIsFile(cfg: Config, tree: Node, remote: Node, it: Item)
    requires it in PullItems(cfg, tree, remote)
    ensures IsFile(Find(remote, it.path))
  {
    var e := EntryOfItem(Diff(tree, remote, []), it);
    DiffFromRemote(tree, remote, e);
    NodeItemIsFile(remote, e.path, if e.Added? then e.node else e.after, it);
  }

  /** No file of a tree is below another. */
  lemma FilesPrefixFree(tree: Node, p: Path, q: Path)
    requires IsFile(Find(tree, p)) && IsFile(Find(tree, q)) && p <= q
    ensures p == q
  {
    assert q == p + q[|p|..];
    FindAppend(tree, p, q[|p|..]);
  }

  /** Neither path is above the other, unless they are the same. */
  predicate Unrelated(p: Path, q: Path) {
    p <= q || q <= p ==> p == q
  }

  ghost predicate AllUnrelated(items: seq<Item>) {
    forall a, b :: a in items && b in items ==> Unrelated(a.path, b.path)
  }

  lemma PullItemsUnrelated(cfg: Config, tree: Node, remote: Node)
    ensures AllUnrelated(PullItems(cfg, tree, remote))
  {
    var items := PullItems(cfg, tree, remote);
    forall a, b | a in items && b in items
      ensures Unrelated(a.path, b.path)
    {
      PullItemIsFile(cfg, tree, remote, a);
      PullItemIsFile(cfg, tree, remote, b);
      if a.path <= b.path {
        FilesPrefixFree(remote, a.path, b.path);
      } else if b.path <= a.path {
        FilesPrefixFree(remote, b.path, a.path);
      }
    }
  }
}
