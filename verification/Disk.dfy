/** The synchronised folder on disk, scanning it into a tree, and keeping the tree up to date. */
module Disk {
  import opened ByteStrings
  import opened Merkle

  /** What a path leads to on disk; the entries of a folder have distinct names. A link is live
      while its target exists. */
  datatype Fs = Regular(data: Bytes) | Folder(entries: map<Name, Fs>) | Symlink(live: bool)

  /** How a folder is scanned: the chunk size and the excluded names. */
  datatype ScanConfig = ScanConfig(chunkSize: nat, patterns: seq<Name>)

  /** Some component of the relative path equals a pattern. */
  predicate ShouldExclude(patterns: seq<Name>, rel: Path) {
    exists i :: 0 <= i < |rel| && rel[i] in patterns
  }

  lemma ExcludeAppend(patterns: seq<Name>, a: Path, b: Path)
    ensures ShouldExclude(patterns, a + b) <==> ShouldExclude(patterns, a) || ShouldExclude(patterns, b)
  {
    if ShouldExclude(patterns, b) {
      var i :| 0 <= i < |b| && b[i] in patterns;
      assert (a + b)[|a| + i] in patterns;
    }
    if ShouldExclude(patterns, a) {
      var i :| 0 <= i < |a| && a[i] in patterns;
      assert (a + b)[i] in patterns;
    }
  }

  /** Every pattern counts, and every component: with no pattern or no component nothing is excluded, lists
      of patterns exclude what either of them does, and one pattern excludes exactly the name it spells. */
  lemma ExcludePatterns(ps: seq<Name>, qs: seq<Name>, rel: Path)
    ensures ShouldExclude(ps + qs, rel) <==> ShouldExclude(ps, rel) || ShouldExclude(qs, rel)
    ensures !ShouldExclude([], rel) && !ShouldExclude(ps, [])
  {
    if ShouldExclude(ps, rel) {
      var i :| 0 <= i < |rel| && rel[i] in ps;
      assert rel[i] in ps + qs;
    }
    if ShouldExclude(qs, rel) {
      var i :| 0 <= i < |rel| && rel[i] in qs;
      assert rel[i] in ps + qs;
    }
  }

  lemma ExcludedIff(patterns: seq<Name>, rel: Path)
    ensures ShouldExclude(patterns, rel) <==> exists n :: n in rel && n in patterns
  {
    if n :| n in rel && n in patterns {
      var i :| 0 <= i < |rel| && rel[i] == n;
      assert rel[i] in patterns;
    }
    if ShouldExclude(patterns, rel) {
      var i :| 0 <= i < |rel| && rel[i] in patterns;
      assert rel[i] in rel;
    }
  }

  lemma ExcludeOne(p: Name, n: Name)
    ensures ShouldExclude([p], [n]) <==> p == n
  {
    if p == n {
      assert [n][0] in [p];
    }
  }

  /** The loops of `should_exclude`: any pattern against any component. */
  method IsExcluded(patterns: seq<Name>, rel: Path) returns (r: bool)
    ensures r <==> ShouldExclude(patterns, rel)
  {
    for i := 0 to |patterns|
      invariant !ShouldExclude(patterns[..i], rel)
    {
      for j := 0 to |rel|
        invariant !ShouldExclude([patterns[i]], rel[..j])
      {
        assert rel[..j + 1] == rel[..j] + [rel[j]];
        ExcludeAppend([patterns[i]], rel[..j], [rel[j]]);
        ExcludeOne(patterns[i], rel[j]);
        if rel[j] == patterns[i] {
          ExcludedByOne(patterns, i, rel, j);
          return true;
        }
      }
      assert rel[..|rel|] == rel;
      assert patterns[..i + 1] == patterns[..i] + [patterns[i]];
      ExcludePatterns(patterns[..i], [patterns[i]], rel);
    }
    assert patterns[..|patterns|] == patterns;
    r := false;
  }

  lemma ExcludedByOne(patterns: seq<Name>, i: nat, rel: Path, j: nat)
    requires i < |patterns| && j < |rel| && patterns[i] == rel[j]
    ensures ShouldExclude(patterns, rel)
  {
    assert rel[j] in patterns;
  }

  /** The entry `name` of the folder at `rel` is indexed. */
  predicate Indexed(cfg: ScanConfig, entries: map<Name, Fs>, name: Name, rel: Path) {
    name in entries && !entries[name].Symlink? && !ShouldExclude(cfg.patterns, rel + [name])
  }

  function Scan(hash: Hasher, cfg: ScanConfig, fs: Fs, rel: Path): Node
    requires cfg.chunkSize > 0
  {
    match fs
    case Symlink(_) => DirNode(hash, map[])
    case Regular(data) => FileNode(hash, data, cfg.chunkSize)
    case Folder(entries) =>
      DirNode(hash, map k | k in entries && Indexed(cfg, entries, k, rel) :: Scan(hash, cfg, entries[k], rel + [k]))
  }

  // ---- The directory listing ----

  /** `read_dir`: the names in the folder, in whatever order they come. */
  method ReadDirectory(entries: map<Name, Fs>) returns (listing: seq<Name>)
    ensures Distinct(listing) && forall k :: k in listing <==> k in entries
  {
    listing := [];
    var todo := entries.Keys;
    while todo != {}
      invariant Distinct(listing)
      invariant forall k :: k in entries <==> k in todo || k in listing
      invariant forall k :: k in todo ==> k !in listing
    {
      var k :| k in todo;
      assert ([k] + listing)[1..] == listing;
      listing, todo := [k] + listing, todo - {k};
    }
  }

  function InsertedByName(k: Name, names: seq<Name>): (r: seq<Name>)
    ensures forall x :: x in r <==> x == k || x in names
  {
    if names == [] || Less(k, names[0]) then [k] + names else [names[0]] + InsertedByName(k, names[1..])
  }

  function SortedByName(listing: seq<Name>): (r: seq<Name>)
    ensures forall x :: x in r <==> x in listing
  {
    if listing == [] then [] else InsertedByName(listing[0], SortedByName(listing[1..]))
  }

  lemma {:induction false} InsertedSorted(k: Name, names: seq<Name>)
    requires StrictlySorted(names) && k !in names
    ensures StrictlySorted(InsertedByName(k, names))
  {
    if names != [] {
      if Less(k, names[0]) {
        forall j | 0 <= j < |names|
          ensures Less(k, names[j])
        {
          if j > 0 {
            LessTransitive(k, names[0], names[j]);
          }
        }
      } else {
        LessTotal(k, names[0]);
        InsertedSorted(k, names[1..]);
        var rest := InsertedByName(k, names[1..]);
        assert forall j :: 0 <= j < |rest| ==> rest[j] in rest;
      }
    }
  }

  lemma {:induction false} SortedByNameSorted(listing: seq<Name>)
    requires Distinct(listing)
    ensures StrictlySorted(SortedByName(listing))
  {
    if listing != [] {
      SortedByNameSorted(listing[1..]);
      InsertedSorted(listing[0], SortedByName(listing[1..]));
    }
  }

  /** Whatever order the names were read in, sorting them gives the one order of the folder's names. */
  lemma ListingOrderIrrelevant(listing: seq<Name>, names: set<Name>)
    requires Distinct(listing) && forall k :: k in listing <==> k in names
    ensures SortedByName(listing) == SortedKeys(names)
  {
    SortedByNameSorted(listing);
    SortedKeysSorted(names);
    SortedUnique(SortedByName(listing), SortedKeys(names));
  }

  /** The listing comes in any order; the node does not depend on it. */
  method FromPathConfigured(hash: Hasher, cfg: ScanConfig, fs: Fs, rel: Path) returns (node: Node)
    requires cfg.chunkSize > 0
    ensures node == Scan(hash, cfg, fs, rel)
    decreases fs
  {
    if fs.Symlink? {
      var digest := DirHash(hash, map[]);
      return Directory(digest, map[]);
    }
    if fs.Regular? {
      node := BuildFileNode(hash, fs.data, cfg.chunkSize);
      return;
    }
    var children: map<Name, Node> := map[];
    var listing := ReadDirectory(fs.entries);
    var names := SortedByName(listing);
    ListingOrderIrrelevant(listing, fs.entries.Keys);
    for i := 0 to |names|
      invariant ScannedSoFar(hash, cfg, fs.entries, rel, names[..i], children)
    {
      var name := names[i];
      ScannedStep(hash, cfg, fs.entries, rel, names, i, children);
      if fs.entries[name].Symlink? {
        continue;
      }
      var excluded := IsExcluded(cfg.patterns, rel + [name]);
      if excluded {
        continue;
      }
      var child := FromPathConfigured(hash, cfg, fs.entries[name], rel + [name]);
      children := children[name := child];
    }
    ScannedAll(hash, cfg, fs.entries, rel, names, children);
    var digest := DirHash(hash, children);
    node := Directory(digest, children);
  }

  /** `children` holds the scans of the indexed entries among `done`. */
  ghost predicate ScannedSoFar(hash: Hasher, cfg: ScanConfig, entries: map<Name, Fs>, rel: Path, done: seq<Name>,
      children: map<Name, Node>)
    requires cfg.chunkSize > 0
  {
    && (forall k :: k in children <==> k in done && Indexed(cfg, entries, k, rel))
    && (forall k :: k in children ==> children[k] == Scan(hash, cfg, entries[k], rel + [k]))
  }

  lemma ScannedStep(hash: Hasher, cfg: ScanConfig, entries: map<Name, Fs>, rel: Path, names: seq<Name>, i: nat,
      children: map<Name, Node>)
    requires cfg.chunkSize > 0 && i < |names| && names[i] in entries
    requires ScannedSoFar(hash, cfg, entries, rel, names[..i], children)
    ensures var k := names[i];
      ScannedSoFar(hash, cfg, entries, rel, names[..i + 1],
        if Indexed(cfg, entries, k, rel) then children[k := Scan(hash, cfg, entries[k], rel + [k])] else children)
  {
    assert names[..i + 1] == names[..i] + [names[i]];
  }

  lemma ScannedAll(hash: Hasher, cfg: ScanConfig, entries: map<Name, Fs>, rel: Path, names: seq<Name>,
      children: map<Name, Node>)
    requires cfg.chunkSize > 0 && forall k :: k in names <==> k in entries
    requires ScannedSoFar(hash, cfg, entries, rel, names[..|names|], children)
    ensures DirNode(hash, children) == Scan(hash, cfg, Folder(entries), rel)
  {
    assert names[..|names|] == names;
    assert children == Scan(hash, cfg, Folder(entries), rel).children;
  }

  lemma {:induction false} ScanConsistent(hash: Hasher, cfg: ScanConfig, fs: Fs, rel: Path)
    requires cfg.chunkSize > 0
    ensures Consistent(hash, Scan(hash, cfg, fs, rel))
    decreases fs
  {
    if fs.Folder? {
      forall k | k in fs.entries
        ensures Consistent(hash, Scan(hash, cfg, fs.entries[k], rel + [k]))
      {
        ScanConsistent(hash, cfg, fs.entries[k], rel + [k]);
      }
    }
  }

  // ---- Reading, writing and deleting ----

  function Lookup(fs: Fs, path: Path): Option<Fs> {
    if path == [] then Some(fs)
    else if fs.Folder? && path[0] in fs.entries then Lookup(fs.entries[path[0]], path[1..])
    else None
  }

  /** A file can be written at `path`, parents being created: nothing on the way is a file or a
      link, and the target is not a folder or a link. */
  predicate Writable(fs: Fs, path: Path)
    decreases path
  {
    && path != []
    && fs.Folder?
    && (path[0] in fs.entries ==>
          if |path| == 1 then fs.entries[path[0]].Regular? else Writable(fs.entries[path[0]], path[1..]))
  }

  function EntryOrEmpty(entries: map<Name, Fs>, name: Name): Fs {
    if name in entries then entries[name] else Folder(map[])
  }

  function Write(fs: Fs, path: Path, data: Bytes): Fs
    requires Writable(fs, path)
    decreases path
  {
    Folder(fs.entries[path[0] :=
      if |path| == 1 then Regular(data) else Write(EntryOrEmpty(fs.entries, path[0]), path[1..], data)])
  }

  function Delete(fs: Fs, path: Path): Fs
    requires path != [] && Lookup(fs, path).Some?
    decreases path
  {
    if |path| == 1 then Folder(fs.entries - {path[0]})
    else Folder(fs.entries[path[0] := Delete(fs.entries[path[0]], path[1..])])
  }

  // ---- The incremental tree equals the rebuilt tree ----

  function Scanned(hash: Hasher, cfg: ScanConfig, entries: map<Name, Fs>, rel: Path): map<Name, Node>
    requires cfg.chunkSize > 0
  {
    map k | k in entries && Indexed(cfg, entries, k, rel) :: Scan(hash, cfg, entries[k], rel + [k])
  }

  lemma ScanFolder(hash: Hasher, cfg: ScanConfig, entries: map<Name, Fs>, rel: Path)
    requires cfg.chunkSize > 0
    ensures Scan(hash, cfg, Folder(entries), rel) == DirNode(hash, Scanned(hash, cfg, entries, rel))
  {
    assert Scan(hash, cfg, Folder(entries), rel).children == Scanned(hash, cfg, entries, rel);
  }

  lemma ScannedUpdate(hash: Hasher, cfg: ScanConfig, entries: map<Name, Fs>, k: Name, fs: Fs, rel: Path)
    requires cfg.chunkSize > 0 && !fs.Symlink? && !ShouldExclude(cfg.patterns, rel + [k])
    ensures Scanned(hash, cfg, entries[k := fs], rel)
         == Scanned(hash, cfg, entries, rel)[k := Scan(hash, cfg, fs, rel + [k])]
  {
  }

  lemma ScannedDrop(hash: Hasher, cfg: ScanConfig, entries: map<Name, Fs>, k: Name, rel: Path)
    requires cfg.chunkSize > 0
    ensures Scanned(hash, cfg, entries - {k}, rel) == Scanned(hash, cfg, entries, rel) - {k}
  {
  }

  lemma ScannedHidden(hash: Hasher, cfg: ScanConfig, entries: map<Name, Fs>, k: Name, fs: Fs, rel: Path)
    requires cfg.chunkSize > 0 && ShouldExclude(cfg.patterns, rel + [k])
    ensures Scanned(hash, cfg, entries[k := fs], rel) == Scanned(hash, cfg, entries, rel)
    ensures k !in Scanned(hash, cfg, entries, rel)
  {
    var a, b := Scanned(hash, cfg, entries[k := fs], rel), Scanned(hash, cfg, entries, rel);
    forall j
      ensures (j in a <==> j in b) && (j in b ==> a[j] == b[j])
    {
      assert j != k ==> (Indexed(cfg, entries[k := fs], j, rel) <==> Indexed(cfg, entries, j, rel));
    }
  }

  lemma {:induction false} ScanWrite(hash: Hasher, cfg: ScanConfig, fs: Fs, rel: Path, path: Path, data: Bytes)
    requires cfg.chunkSize > 0 && Writable(fs, path) && !ShouldExclude(cfg.patterns, rel + path)
    ensures Scan(hash, cfg, Write(fs, path, data), rel)
         == Insert(hash, Scan(hash, cfg, fs, rel), path, FileNode(hash, data, cfg.chunkSize))
    decreases path
  {
    var k, rest := path[0], path[1..];
    assert rel + path == rel + [k] + rest;
    ExcludeAppend(cfg.patterns, rel + [k], rest);
    var child := if rest == [] then Regular(data) else Write(EntryOrEmpty(fs.entries, k), rest, data);
    ScanFolder(hash, cfg, fs.entries, rel);
    ScanFolder(hash, cfg, fs.entries[k := child], rel);
    ScannedUpdate(hash, cfg, fs.entries, k, child, rel);
    if rest != [] {
      ScanFolder(hash, cfg, map[], rel + [k]);
      assert Scanned(hash, cfg, map[], rel + [k]) == map[];
      ScanWrite(hash, cfg, EntryOrEmpty(fs.entries, k), rel + [k], rest, data);
    }
  }

  lemma RemoveBelow(hash: Hasher, children: map<Name, Node>, path: Path)
    requires |path| > 1
    ensures var dir := DirNode(hash, children);
      Remove(hash, dir, path) ==
        if path[0] in children then DirNode(hash, children[path[0] := Remove(hash, children[path[0]], path[1..])])
        else dir
  {
    if path[0] in children && !Removable(children[path[0]], path[1..]) {
      assert children[path[0] := children[path[0]]] == children;
    }
  }

  lemma RemoveHere(hash: Hasher, children: map<Name, Node>, k: Name)
    ensures Remove(hash, DirNode(hash, children), [k]) == DirNode(hash, children - {k})
  {
    if k !in children {
      assert children - {k} == children;
    } else {
      assert Find(children[k], [k][1..]).Some?;
    }
  }

  lemma {:induction false} ScanDelete(hash: Hasher, cfg: ScanConfig, fs: Fs, rel: Path, path: Path)
    requires cfg.chunkSize > 0 && path != [] && Lookup(fs, path).Some?
    ensures Scan(hash, cfg, Delete(fs, path), rel) == Remove(hash, Scan(hash, cfg, fs, rel), path)
    decreases path
  {
    var k, rest := path[0], path[1..];
    var children := Scanned(hash, cfg, fs.entries, rel);
    ScanFolder(hash, cfg, fs.entries, rel);
    if rest == [] {
      assert path == [k];
      RemoveHere(hash, children, k);
      ScanFolder(hash, cfg, fs.entries - {k}, rel);
      ScannedDrop(hash, cfg, fs.entries, k, rel);
    } else {
      var child := Delete(fs.entries[k], rest);
      assert fs.entries[k].Folder? && child.Folder?;
      ScanFolder(hash, cfg, fs.entries[k := child], rel);
      RemoveBelow(hash, children, path);
      if ShouldExclude(cfg.patterns, rel + [k]) {
        ScannedHidden(hash, cfg, fs.entries, k, child, rel);
      } else {
        ScanDelete(hash, cfg, fs.entries[k], rel + [k], rest);
        ScannedUpdate(hash, cfg, fs.entries, k, child, rel);
      }
    }
  }

  datatype DiskOp = Wrote(path: Path, data: Bytes) | Deleted(path: Path)

  predicate Enabled(cfg: ScanConfig, fs: Fs, op: DiskOp) {
    match op
    case Wrote(path, _) => Writable(fs, path) && !ShouldExclude(cfg.patterns, path)
    case Deleted(path) => path != [] && Lookup(fs, path).Some?
  }

  function OnDisk(cfg: ScanConfig, fs: Fs, op: DiskOp): Fs
    requires Enabled(cfg, fs, op)
  {
    match op
    case Wrote(path, data) => Write(fs, path, data)
    case Deleted(path) => Delete(fs, path)
  }

  /** `update_file_with_chunk_size` and `remove_path`. */
  function OnTree(hash: Hasher, cfg: ScanConfig, tree: Node, op: DiskOp): Node
    requires cfg.chunkSize > 0
  {
    match op
    case Wrote(path, data) => Insert(hash, tree, path, FileNode(hash, data, cfg.chunkSize))
    case Deleted(path) => Remove(hash, tree, path)
  }

  ghost predicate EnabledRun(cfg: ScanConfig, fs: Fs, ops: seq<DiskOp>)
    decreases ops
  {
    ops == [] || (Enabled(cfg, fs, ops[0]) && EnabledRun(cfg, OnDisk(cfg, fs, ops[0]), ops[1..]))
  }

  function DiskRun(cfg: ScanConfig, fs: Fs, ops: seq<DiskOp>): Fs
    requires EnabledRun(cfg, fs, ops)
    decreases ops
  {
    if ops == [] then fs else DiskRun(cfg, OnDisk(cfg, fs, ops[0]), ops[1..])
  }

  function TreeRun(hash: Hasher, cfg: ScanConfig, tree: Node, ops: seq<DiskOp>): Node
    requires cfg.chunkSize > 0
    decreases ops
  {
    if ops == [] then tree else TreeRun(hash, cfg, OnTree(hash, cfg, tree, ops[0]), ops[1..])
  }

  /** After any run of file writes and deletions the incrementally kept tree is the tree a
      scan from scratch would build. */
  lemma {:induction false} IncrementalEqualsRebuilt(hash: Hasher, cfg: ScanConfig, fs: Fs, ops: seq<DiskOp>)
    requires cfg.chunkSize > 0 && EnabledRun(cfg, fs, ops)
    ensures TreeRun(hash, cfg, Scan(hash, cfg, fs, []), ops) == Scan(hash, cfg, DiskRun(cfg, fs, ops), [])
    decreases ops
  {
    if ops != [] {
      var next := OnDisk(cfg, fs, ops[0]);
      match ops[0] {
        case Wrote(path, data) =>
          assert [] + path == path;
          ScanWrite(hash, cfg, fs, [], path, data);
        case Deleted(path) =>
          ScanDelete(hash, cfg, fs, [], path);
      }
      IncrementalEqualsRebuilt(hash, cfg, next, ops[1..]);
    }
  }

  // ---- What the tree shows of the disk ----

  function DataAt(fs: Fs, path: Path): Option<Bytes> {
    var entry := Lookup(fs, path);
    if entry.Some? && entry.value.Regular? then Some(entry.value.data) else None
  }

  /** The data of the file at `path`, unless it is excluded. */
  function ContentAt(cfg: ScanConfig, fs: Fs, path: Path): Option<Bytes> {
    if ShouldExclude(cfg.patterns, path) then None else DataAt(fs, path)
  }

  /** Lookup in the scanned tree finds the scan of what is on disk, unless that is excluded or a link. */
  lemma {:induction false} ScanFind(hash: Hasher, cfg: ScanConfig, fs: Fs, rel: Path, p: Path)
    requires cfg.chunkSize > 0 && p != [] && !ShouldExclude(cfg.patterns, rel)
    ensures Find(Scan(hash, cfg, fs, rel), p) ==
      if ShouldExclude(cfg.patterns, p) || Lookup(fs, p) == None || Lookup(fs, p).value.Symlink? then None
      else Some(Scan(hash, cfg, Lookup(fs, p).value, rel + p))
    decreases p
  {
    var k, q := p[0], p[1..];
    assert p == [k] + q && rel + p == rel + [k] + q;
    ExcludeAppend(cfg.patterns, [k], q);
    ExcludeAppend(cfg.patterns, rel, [k]);
    if fs.Folder? {
      ScanFolder(hash, cfg, fs.entries, rel);
      if k in fs.entries {
        if q == [] {
          assert p == [k];
        } else if Indexed(cfg, fs.entries, k, rel) {
          ScanFind(hash, cfg, fs.entries[k], rel + [k], q);
        }
      }
    }
  }

  /** The files of a scanned folder are the files on disk that are not excluded. */
  lemma ScanFile(hash: Hasher, cfg: ScanConfig, fs: Fs, p: Path)
    requires cfg.chunkSize > 0 && fs.Folder?
    ensures IsFile(Find(Scan(hash, cfg, fs, []), p)) <==> ContentAt(cfg, fs, p).Some?
    ensures ContentAt(cfg, fs, p).Some? ==>
      Find(Scan(hash, cfg, fs, []), p) == Some(FileNode(hash, ContentAt(cfg, fs, p).value, cfg.chunkSize))
  {
    if p != [] {
      ScanFind(hash, cfg, fs, [], p);
    }
  }

  // ---- What a write changes ----

  lemma LookupSingle(fs: Fs, k: Name, q: Path)
    requires fs.Folder? && q != [] && q[0] == k
    ensures Lookup(fs, q) == if k !in fs.entries then None
                             else if q[1..] == [] then Some(fs.entries[k]) else Lookup(fs.entries[k], q[1..])
  {
  }

  /** A write changes the data at its own path and nowhere else. */
  lemma {:induction false} WriteData(fs: Fs, path: Path, data: Bytes, q: Path)
    requires Writable(fs, path)
    ensures DataAt(Write(fs, path, data), q) == if q == path then Some(data) else DataAt(fs, q)
    decreases path
  {
    if q != [] && q[0] == path[0] {
      assert path == [path[0]] + path[1..] && q == [q[0]] + q[1..];
      var child := if |path| == 1 then Regular(data) else Write(EntryOrEmpty(fs.entries, path[0]), path[1..], data);
      assert Lookup(Write(fs, path, data), q) == Lookup(child, q[1..]);
      if |path| > 1 {
        WriteData(EntryOrEmpty(fs.entries, path[0]), path[1..], data, q[1..]);
        assert Lookup(fs, q).Some? ==> Lookup(fs, q) == Lookup(EntryOrEmpty(fs.entries, path[0]), q[1..]);
      } else {
        LookupSingle(fs, path[0], q);
        assert Lookup(child, q[1..]) == if q[1..] == [] then Some(child) else None;
      }
    }
  }

  lemma {:induction false} WriteKeepsWritable(fs: Fs, path: Path, data: Bytes, q: Path)
    requires Writable(fs, path) && Writable(fs, q)
    requires path <= q || q <= path ==> path == q
    ensures Writable(Write(fs, path, data), q)
    decreases path
  {
    if q[0] == path[0] {
      PrefixStep(path, q);
      assert path == [path[0]] + path[1..] && q == [q[0]] + q[1..];
      if |path| > 1 && |q| > 1 {
        var child := EntryOrEmpty(fs.entries, path[0]);
        WriteKeepsWritable(child, path[1..], data, q[1..]);
      }
    }
  }

  /** Where a file can be written, the scanned tree has no file on the way and no directory in place. */
  lemma {:induction false} WritablePermitted(hash: Hasher, cfg: ScanConfig, fs: Fs, rel: Path, path: Path)
    requires cfg.chunkSize > 0 && Writable(fs, path)
    ensures Permitted(Scan(hash, cfg, fs, rel), path)
    ensures !IsDir(Find(Scan(hash, cfg, fs, rel), path))
    decreases path
  {
    var k := path[0];
    ScanFolder(hash, cfg, fs.entries, rel);
    if |path| > 1 && k in fs.entries {
      WritablePermitted(hash, cfg, fs.entries[k], rel + [k], path[1..]);
    }
  }

  /** A file on disk can be overwritten. */
  lemma {:induction false} FileIsWritable(fs: Fs, path: Path)
    requires DataAt(fs, path).Some? && fs.Folder?
    ensures Writable(fs, path)
    decreases path
  {
    if |path| == 1 {
      LookupSingle(fs, path[0], path);
    } else if path != [] {
      FileIsWritable(fs.entries[path[0]], path[1..]);
    }
  }

  /** Beside a file, any name can be written that is not taken by a folder or a link. */
  lemma {:induction false} BesideFileIsWritable(fs: Fs, path: Path, q: Path)
    requires DataAt(fs, path).Some? && fs.Folder?
    requires |q| == |path| && q[..|q| - 1] == path[..|path| - 1]
    requires Lookup(fs, q).Some? ==> Lookup(fs, q).value.Regular?
    ensures Writable(fs, q)
    decreases path
  {
    if |path| == 1 {
      LookupSingle(fs, q[0], q);
    } else {
      assert q[0] == q[..|q| - 1][0] && path[0] == path[..|path| - 1][0];
      assert q[1..][..|q| - 2] == q[..|q| - 1][1..] && path[1..][..|path| - 2] == path[..|path| - 1][1..];
      BesideFileIsWritable(fs.entries[path[0]], path[1..], q[1..]);
    }
  }

  /** Whatever is above something on disk is on disk. */
  lemma {:induction false} AboveExists(fs: Fs, path: Path, n: nat)
    requires Lookup(fs, path).Some? && n <= |path|
    ensures Lookup(fs, path[..n]).Some?
    decreases path
  {
    if n > 0 {
      AboveExists(fs.entries[path[0]], path[1..], n - 1);
      assert path[..n][1..] == path[1..][..n - 1];
    }
  }

  /** What a write needs: every folder on the way is a folder or missing, and the target is a file or
      missing. */
  lemma {:induction false} WritableIff(fs: Fs, path: Path)
    ensures Writable(fs, path) <==>
      && path != [] && (Lookup(fs, path).Some? ==> Lookup(fs, path).value.Regular?)
      && forall i :: 0 <= i < |path| && Lookup(fs, path[..i]).Some? ==> Lookup(fs, path[..i]).value.Folder?
    decreases path
  {
    assert path[..0] == [];
    if path != [] && fs.Folder? && path[0] in fs.entries {
      var child, rest := fs.entries[path[0]], path[1..];
      forall i | 1 <= i <= |path|
        ensures Lookup(fs, path[..i]) == Lookup(child, rest[..i - 1])
      {
        assert path[..i][0] == path[0] && path[..i][1..] == rest[..i - 1];
      }
      assert path[..|path|] == path && rest[..|rest|] == rest;
      if |path| > 1 {
        WritableIff(child, rest);
        forall i | 0 <= i < |rest|
          ensures Lookup(child, rest[..i]) == Lookup(fs, path[..i + 1])
        {
        }
      }
    }
    if path != [] && fs.Folder? && path[0] !in fs.entries {
      forall i | 1 <= i <= |path|
        ensures Lookup(fs, path[..i]) == None
      {
        assert path[..i][0] == path[0];
      }
      assert path[..|path|] == path;
    }
  }

  /** Nothing is below a file. */
  lemma {:induction false} NothingBelowFile(fs: Fs, p: Path, q: Path)
    requires DataAt(fs, p).Some? && DataAt(fs, q).Some? && p <= q
    ensures p == q
    decreases p
  {
    if p != [] {
      PrefixStep(p, q);
      NothingBelowFile(fs.entries[p[0]], p[1..], q[1..]);
      assert p == [p[0]] + p[1..] && q == [q[0]] + q[1..];
    }
  }

  predicate IsFolder(entry: Option<Fs>) {
    entry.Some? && entry.value.Folder?
  }

  /** A write leaves every folder a folder. */
  lemma {:induction false} WriteKeepsFolder(fs: Fs, path: Path, data: Bytes, q: Path)
    requires Writable(fs, path) && IsFolder(Lookup(fs, q))
    ensures IsFolder(Lookup(Write(fs, path, data), q))
    decreases path
  {
    if q != [] && q[0] == path[0] {
      LookupSingle(fs, path[0], q);
      if |path| > 1 {
        WriteKeepsFolder(fs.entries[path[0]], path[1..], data, q[1..]);
      }
    }
  }

  /** Afterwards there are folders all the way down to the file. */
  lemma {:induction false} WriteMakesFolders(fs: Fs, path: Path, data: Bytes, q: Path)
    requires Writable(fs, path) && q <= path && q != path
    ensures IsFolder(Lookup(Write(fs, path, data), q))
    decreases path
  {
    if q != [] {
      PrefixStep(q, path);
      assert q == [q[0]] + q[1..] && path == [path[0]] + path[1..];
      WriteMakesFolders(EntryOrEmpty(fs.entries, path[0]), path[1..], data, q[1..]);
    }
  }

  /** A file can be written only below folders and not in place of one. */
  lemma {:induction false} WritableAbove(fs: Fs, path: Path, q: Path)
    requires Writable(fs, path) && q <= path
    ensures if q == path then !IsFolder(Lookup(fs, q)) else DataAt(fs, q) == None
    decreases path
  {
    if q != [] {
      PrefixStep(q, path);
      assert q == [q[0]] + q[1..] && path == [path[0]] + path[1..];
      if path[0] in fs.entries && |path| > 1 {
        WritableAbove(fs.entries[path[0]], path[1..], q[1..]);
      }
    }
  }

  /** A deletion leaves every file and folder that is not below its path. */
  lemma {:induction false} DeleteKeeps(fs: Fs, path: Path, q: Path)
    requires path != [] && Lookup(fs, path).Some? && !(path <= q)
    ensures DataAt(Delete(fs, path), q) == DataAt(fs, q)
    ensures IsFolder(Lookup(Delete(fs, path), q)) <==> IsFolder(Lookup(fs, q))
    decreases path
  {
    if q != [] && q[0] == path[0] {
      PrefixStep(path, q);
      if |path| > 1 && path[0] in fs.entries {
        DeleteKeeps(fs.entries[path[0]], path[1..], q[1..]);
      }
    }
  }

  /** A deletion leaves nothing at or below its path. */
  lemma {:induction false} DeleteGone(fs: Fs, path: Path, q: Path)
    requires path != [] && Lookup(fs, path).Some? && path <= q
    ensures Lookup(Delete(fs, path), q) == None
    decreases path
  {
    PrefixStep(path, q);
    if |path| > 1 {
      DeleteGone(fs.entries[path[0]], path[1..], q[1..]);
    }
  }

  /** Where a file was deleted, one can be written below its path. */
  lemma {:induction false} DeleteMakesRoom(fs: Fs, path: Path, name: Name)
    requires path != [] && DataAt(fs, path).Some?
    ensures Writable(Delete(fs, path), path + [name])
    decreases path
  {
    assert (path + [name])[0] == path[0] && (path + [name])[1..] == path[1..] + [name];
    if |path| > 1 {
      DeleteMakesRoom(fs.entries[path[0]], path[1..], name);
    }
  }

  /** A write makes no other path writable, unless that is above or below its own. */
  lemma {:induction false} WriteAddsNoRoom(fs: Fs, path: Path, data: Bytes, q: Path)
    requires Writable(fs, path) && Writable(Write(fs, path, data), q)
    requires path <= q || q <= path ==> path == q
    ensures Writable(fs, q)
    decreases path
  {
    if q[0] == path[0] {
      PrefixStep(path, q);
      assert path == [path[0]] + path[1..] && q == [q[0]] + q[1..];
      if |path| > 1 && |q| > 1 {
        WriteAddsNoRoom(EntryOrEmpty(fs.entries, path[0]), path[1..], data, q[1..]);
      }
    }
  }

  /** `remove_file` after `exists()`: files and links that lead somewhere can be unlinked. */
  predicate Unlinkable(fs: Fs, path: Path) {
    var entry := Lookup(fs, path);
    path != [] && entry.Some? && match entry.value
      case Regular(_) => true
      case Symlink(live) => live
      case Folder(_) => false
  }

  /** Unlinking changes the data at its own path and nowhere else. */
  lemma {:induction false} UnlinkData(fs: Fs, path: Path, q: Path)
    requires Unlinkable(fs, path)
    ensures DataAt(Delete(fs, path), q) == if q == path then None else DataAt(fs, q)
    decreases path
  {
    if q != [] && q[0] == path[0] {
      assert path == [path[0]] + path[1..] && q == [q[0]] + q[1..];
      if |path| > 1 {
        UnlinkData(fs.entries[path[0]], path[1..], q[1..]);
      } else {
        LookupSingle(fs, path[0], q);
      }
    }
  }

  // ---- Writes the index is not told about ----

  /** An excluded file shows up in the scan only through the folders made for it. */
  ghost predicate NoNewFolders(cfg: ScanConfig, fs: Fs, rel: Path, path: Path) {
    forall i :: 0 <= i < |path| && !ShouldExclude(cfg.patterns, rel + path[..i]) ==> Lookup(fs, path[..i]).Some?
  }

  lemma NoNewFoldersBelow(cfg: ScanConfig, fs: Fs, rel: Path, path: Path)
    requires |path| > 1 && Writable(fs, path) && !ShouldExclude(cfg.patterns, rel + [path[0]])
    requires NoNewFolders(cfg, fs, rel, path)
    ensures path[0] in fs.entries && NoNewFolders(cfg, fs.entries[path[0]], rel + [path[0]], path[1..])
  {
    var k, rest := path[0], path[1..];
    assert rel + [k] + rest[..0] == rel + [k];
    NoNewFolderBelow(cfg, fs, rel, path, 0);
    forall i | 0 <= i < |rest| && !ShouldExclude(cfg.patterns, rel + [k] + rest[..i])
      ensures Lookup(fs.entries[k], rest[..i]).Some?
    {
      NoNewFolderBelow(cfg, fs, rel, path, i);
    }
  }

  lemma NoNewFolderBelow(cfg: ScanConfig, fs: Fs, rel: Path, path: Path, i: nat)
    requires i + 1 < |path| && fs.Folder? && NoNewFolders(cfg, fs, rel, path)
    requires !ShouldExclude(cfg.patterns, rel + [path[0]] + path[1..][..i])
    ensures path[0] in fs.entries && Lookup(fs.entries[path[0]], path[1..][..i]).Some?
  {
    var prefix := path[..i + 1];
    assert prefix == [path[0]] + path[1..][..i];
    assert rel + prefix == rel + [path[0]] + path[1..][..i];
    assert prefix[0] == path[0] && prefix[1..] == path[1..][..i];
  }

  lemma ScanHidden(hash: Hasher, cfg: ScanConfig, entries: map<Name, Fs>, rel: Path, k: Name, child: Fs)
    requires cfg.chunkSize > 0 && ShouldExclude(cfg.patterns, rel + [k])
    ensures Scan(hash, cfg, Folder(entries[k := child]), rel) == Scan(hash, cfg, Folder(entries), rel)
  {
    ScanFolder(hash, cfg, entries, rel);
    ScanFolder(hash, cfg, entries[k := child], rel);
    ScannedHidden(hash, cfg, entries, k, child, rel);
  }

  lemma ScanSameChild(hash: Hasher, cfg: ScanConfig, entries: map<Name, Fs>, rel: Path, k: Name, child: Fs)
    requires cfg.chunkSize > 0 && !ShouldExclude(cfg.patterns, rel + [k])
    requires k in entries && entries[k].Folder? && child.Folder?
    requires Scan(hash, cfg, child, rel + [k]) == Scan(hash, cfg, entries[k], rel + [k])
    ensures Scan(hash, cfg, Folder(entries[k := child]), rel) == Scan(hash, cfg, Folder(entries), rel)
  {
    ScanFolder(hash, cfg, entries, rel);
    ScanFolder(hash, cfg, entries[k := child], rel);
    ScannedUpdate(hash, cfg, entries, k, child, rel);
    SameEntry(Scanned(hash, cfg, entries, rel), k);
  }

  lemma SameEntry(children: map<Name, Node>, k: Name)
    requires k in children
    ensures children[k := children[k]] == children
  {
  }

  lemma {:induction false} HiddenWrite(hash: Hasher, cfg: ScanConfig, fs: Fs, rel: Path, path: Path, data: Bytes)
    requires cfg.chunkSize > 0 && Writable(fs, path)
    requires ShouldExclude(cfg.patterns, rel + path) && NoNewFolders(cfg, fs, rel, path)
    ensures Scan(hash, cfg, Write(fs, path, data), rel) == Scan(hash, cfg, fs, rel)
    decreases path
  {
    var k, rest := path[0], path[1..];
    var child := if rest == [] then Regular(data) else Write(EntryOrEmpty(fs.entries, k), rest, data);
    assert rel + path == rel + [k] + rest;
    if ShouldExclude(cfg.patterns, rel + [k]) {
      ScanHidden(hash, cfg, fs.entries, rel, k, child);
    } else {
      assert rest == [] ==> rel + path == rel + [k];
      NoNewFoldersBelow(cfg, fs, rel, path);
      HiddenWrite(hash, cfg, fs.entries[k], rel + [k], rest, data);
      ScanSameChild(hash, cfg, fs.entries, rel, k, child);
    }
  }

  lemma NewFolderShows(hash: Hasher, cfg: ScanConfig, fs: Fs, path: Path, data: Bytes, i: nat)
    requires cfg.chunkSize > 0 && Writable(fs, path) && i < |path|
    requires !ShouldExclude(cfg.patterns, path[..i]) && Lookup(fs, path[..i]) == None
    ensures Scan(hash, cfg, Write(fs, path, data), []) != Scan(hash, cfg, fs, [])
  {
    WriteMakesFolders(fs, path, data, path[..i]);
    ScanFind(hash, cfg, Write(fs, path, data), [], path[..i]);
    ScanFind(hash, cfg, fs, [], path[..i]);
  }

  lemma FileWriteShows(hash: Hasher, cfg: ScanConfig, fs: Fs, path: Path, data: Bytes)
    requires cfg.chunkSize > 0 && Writable(fs, path) && !ShouldExclude(cfg.patterns, path)
    ensures Scan(hash, cfg, Write(fs, path, data), []) == Scan(hash, cfg, fs, []) <==>
      Find(Scan(hash, cfg, fs, []), path) == Some(FileNode(hash, data, cfg.chunkSize))
  {
    var tree, file := Scan(hash, cfg, fs, []), FileNode(hash, data, cfg.chunkSize);
    assert [] + path == path;
    ScanWrite(hash, cfg, fs, [], path, data);
    WritablePermitted(hash, cfg, fs, [], path);
    InsertFind(hash, tree, path, file, path);
    assert path[|path|..] == [];
    if Find(tree, path) == Some(file) {
      ScanConsistent(hash, cfg, fs, []);
      InsertSame(hash, tree, path, file);
    }
  }

  /** Replacing a node by itself changes nothing. */
  lemma {:induction false} InsertSame(hash: Hasher, node: Node, path: Path, file: Node)
    requires path != [] && Consistent(hash, node) && Find(node, path) == Some(file)
    ensures Insert(hash, node, path, file) == node
    decreases path
  {
    var child := node.children[path[0]];
    if |path| > 1 {
      InsertSame(hash, child, path[1..], file);
    } else {
      assert path[1..] == [];
    }
    assert node.children[path[0] := child] == node.children;
  }

  /** A scan does not notice a write exactly when the tree already shows that content, or the path is
      excluded and no folder had to be made where the scan would see it. */
  lemma WriteUnnoticedIff(hash: Hasher, cfg: ScanConfig, fs: Fs, path: Path, data: Bytes)
    requires cfg.chunkSize > 0 && Writable(fs, path)
    ensures Scan(hash, cfg, Write(fs, path, data), []) == Scan(hash, cfg, fs, []) <==>
      if ShouldExclude(cfg.patterns, path) then NoNewFolders(cfg, fs, [], path)
      else Find(Scan(hash, cfg, fs, []), path) == Some(FileNode(hash, data, cfg.chunkSize))
  {
    assert [] + path == path;
    if !ShouldExclude(cfg.patterns, path) {
      FileWriteShows(hash, cfg, fs, path, data);
    } else if NoNewFolders(cfg, fs, [], path) {
      HiddenWrite(hash, cfg, fs, [], path, data);
    } else {
      var i :| 0 <= i < |path| && !ShouldExclude(cfg.patterns, [] + path[..i]) && Lookup(fs, path[..i]) == None;
      assert [] + path[..i] == path[..i];
      NewFolderShows(hash, cfg, fs, path, data, i);
    }
  }

  /** Only the last node put at a path matters. */
  lemma {:induction false} InsertTwice(hash: Hasher, node: Node, path: Path, first: Node, second: Node)
    ensures Insert(hash, Insert(hash, node, path, first), path, second) == Insert(hash, node, path, second)
    decreases path
  {
    if node.Directory? && path != [] {
      var k := path[0];
      var child := InsertedChild(hash, node.children, path, first);
      if |path| > 1 {
        InsertTwice(hash, ChildOrEmpty(hash, node.children, k), path[1..], first, second);
      }
      assert node.children[k := child][k := InsertedChild(hash, node.children, path, second)]
          == node.children[k := InsertedChild(hash, node.children, path, second)];
    }
  }

  /** Trees that show the same file differ elsewhere, and so still differ when it is replaced. */
  lemma InsertKeepsDifference(hash: Hasher, a: Node, b: Node, path: Path, was: Node, now: Node)
    requires path != [] && Consistent(hash, a) && Consistent(hash, b) && a != b
    requires Find(a, path) == Some(was) && Find(b, path) == Some(was)
    ensures Insert(hash, a, path, now) != Insert(hash, b, path, now)
  {
    InsertTwice(hash, a, path, now, was);
    InsertTwice(hash, b, path, now, was);
    InsertSame(hash, a, path, was);
    InsertSame(hash, b, path, was);
  }
}
