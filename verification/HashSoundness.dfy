/** What the root hash says about the files, when the hash function does not collide on the inputs involved. */
module HashSoundness {
  import opened ByteStrings
  import opened Merkle
  import opened Disk
  import opened MerklePatch
  import Chunk

  /** The bytes behind a node's hash. */
  ghost function HashedInput(node: Node): Bytes {
    match node
    case File(_, _, chunks) => Chunk.DigestInput(chunks)
    case Directory(_, children) => DirInput(SortedKeys(children.Keys), children)
  }

  ghost predicate SameLengths(a: seq<Name>, b: seq<Name>) {
    |a| == |b| && forall i :: 0 <= i < |a| ==> |a[i]| == |b[i]|
  }

  /** Nodes whose hashes can tell them apart: their inputs differ in length, or they are of one kind and, for
      directories, the sorted names are pairwise of one length and the children below them comparable.
      Nothing marks where a name ends and a hash begins. */
  ghost predicate Comparable(a: Node, b: Node) {
    |HashedInput(a)| != |HashedInput(b)| ||
    match (a, b)
    case (File(_, _, _), File(_, _, _)) => true
    case (Directory(_, c), Directory(_, d)) =>
      var p, q := SortedKeys(c.Keys), SortedKeys(d.Keys);
      SameLengths(p, q) && forall i :: 0 <= i < |p| && 0 <= i < |q| && p[i] in c && q[i] in d ==>
        Comparable(c[p[i]], d[q[i]])
    case _ => false
  }

  /** Same names and kinds throughout. */
  ghost predicate SameShape(a: Node, b: Node) {
    match (a, b)
    case (File(_, _, _), File(_, _, _)) => true
    case (Directory(_, c), Directory(_, d)) =>
      c.Keys == d.Keys && forall k :: k in c && k in d ==> SameShape(c[k], d[k])
    case _ => false
  }

  lemma {:induction false} SameShapeComparable(a: Node, b: Node)
    requires SameShape(a, b)
    ensures Comparable(a, b)
    decreases a
  {
    if a.Directory? {
      forall k | k in a.children
        ensures Comparable(a.children[k], b.children[k])
      {
        SameShapeComparable(a.children[k], b.children[k]);
      }
    }
  }

  /** Everything a scan feeds to the hasher. */
  ghost function ScanInputs(hash: Hasher, cfg: ScanConfig, fs: Fs, rel: Path): set<Bytes>
    requires cfg.chunkSize > 0
    decreases fs
  {
    match fs
    case Symlink(_) => {[]}
    case Regular(data) => Chunk.HashInputs(hash, data, cfg.chunkSize)
    case Folder(entries) =>
      {HashedInput(Scan(hash, cfg, fs, rel))}
      + set k, x | k in entries && Indexed(cfg, entries, k, rel)
        && x in ScanInputs(hash, cfg, entries[k], rel + [k]) :: x
  }

  lemma {:induction false} DirInputInjective(p: seq<Name>, a: map<Name, Node>, q: seq<Name>, b: map<Name, Node>)
    requires (forall k :: k in p ==> k in a) && (forall k :: k in q ==> k in b) && SameLengths(p, q)
    requires DirInput(p, a) == DirInput(q, b)
    ensures p == q && forall k :: k in p ==> a[k].hash == b[k].hash
  {
    if p != [] {
      var k, l, n := p[0], q[0], |p[0]|;
      var x, y := DirInput(p, a), DirInput(q, b);
      assert x[..n] == k && y[..n] == l;
      assert x[n..n + 32] == a[k].hash && y[n..n + 32] == b[l].hash;
      assert x[n + 32..] == DirInput(p[1..], a) && y[n + 32..] == DirInput(q[1..], b);
      assert forall i :: 0 <= i < |p[1..]| ==> p[1..][i] == p[i + 1] && q[1..][i] == q[i + 1];
      DirInputInjective(p[1..], a, q[1..], b);
      assert p == [k] + p[1..] && q == [l] + q[1..];
    }
  }

  /** Directories whose sorted names are pairwise of one length have the same hash only if they have the
      same names and, below them, the same hashes. */
  lemma DirDigestInjective(hash: Hasher, c: map<Name, Node>, d: map<Name, Node>)
    requires SameLengths(SortedKeys(c.Keys), SortedKeys(d.Keys))
    requires CollisionFree(hash, {DirInput(SortedKeys(c.Keys), c), DirInput(SortedKeys(d.Keys), d)})
    requires DirDigest(hash, c) == DirDigest(hash, d)
    ensures c.Keys == d.Keys && forall k :: k in c ==> c[k].hash == d[k].hash
  {
    DirInputInjective(SortedKeys(c.Keys), c, SortedKeys(d.Keys), d);
    forall k
      ensures k in c <==> k in d
    {
      assert k in c <==> k in SortedKeys(c.Keys);
      assert k in d <==> k in SortedKeys(d.Keys);
    }
  }

  lemma ChildInputs(hash: Hasher, cfg: ScanConfig, fs: Fs, rel: Path, k: Name)
    requires cfg.chunkSize > 0 && fs.Folder? && Indexed(cfg, fs.entries, k, rel)
    ensures ScanInputs(hash, cfg, fs.entries[k], rel + [k]) <= ScanInputs(hash, cfg, fs, rel)
  {
  }

  /** All that a scan feeds to the hasher is in `u`. */
  ghost predicate InputsIn(hash: Hasher, cfg: ScanConfig, fs: Fs, rel: Path, u: set<Bytes>)
    requires cfg.chunkSize > 0
    decreases fs
  {
    match fs
    case Symlink(_) => [] in u
    case Regular(data) => Chunk.HashInputs(hash, data, cfg.chunkSize) <= u
    case Folder(entries) =>
      && HashedInput(Scan(hash, cfg, fs, rel)) in u
      && forall k :: k in entries && Indexed(cfg, entries, k, rel) ==> InputsIn(hash, cfg, entries[k], rel + [k], u)
  }

  lemma {:induction false} InputsInMore(hash: Hasher, cfg: ScanConfig, fs: Fs, rel: Path, u: set<Bytes>, v: set<Bytes>)
    requires cfg.chunkSize > 0 && InputsIn(hash, cfg, fs, rel, u) && u <= v
    ensures InputsIn(hash, cfg, fs, rel, v)
    decreases fs
  {
    if fs.Folder? {
      forall k | k in fs.entries && Indexed(cfg, fs.entries, k, rel)
        ensures InputsIn(hash, cfg, fs.entries[k], rel + [k], v)
      {
        InputsInMore(hash, cfg, fs.entries[k], rel + [k], u, v);
      }
    }
  }

  lemma {:induction false} ScanInputsIn(hash: Hasher, cfg: ScanConfig, fs: Fs, rel: Path)
    requires cfg.chunkSize > 0
    ensures InputsIn(hash, cfg, fs, rel, ScanInputs(hash, cfg, fs, rel))
    decreases fs
  {
    if fs.Folder? {
      forall k | k in fs.entries && Indexed(cfg, fs.entries, k, rel)
        ensures InputsIn(hash, cfg, fs.entries[k], rel + [k], ScanInputs(hash, cfg, fs, rel))
      {
        ChildInputs(hash, cfg, fs, rel, k);
        ScanInputsIn(hash, cfg, fs.entries[k], rel + [k]);
        InputsInMore(hash, cfg, fs.entries[k], rel + [k],
          ScanInputs(hash, cfg, fs.entries[k], rel + [k]), ScanInputs(hash, cfg, fs, rel));
      }
    }
  }

  lemma BothInputsIn(hash: Hasher, cfg: ScanConfig, a: Fs, cfg': ScanConfig, b: Fs, rel: Path, rel': Path)
    requires cfg.chunkSize > 0 && cfg'.chunkSize > 0
    ensures var u := ScanInputs(hash, cfg, a, rel) + ScanInputs(hash, cfg', b, rel');
      InputsIn(hash, cfg, a, rel, u) && InputsIn(hash, cfg', b, rel', u)
  {
    var x, y := ScanInputs(hash, cfg, a, rel), ScanInputs(hash, cfg', b, rel');
    ScanInputsIn(hash, cfg, a, rel);
    ScanInputsIn(hash, cfg', b, rel');
    InputsInMore(hash, cfg, a, rel, x, x + y);
    InputsInMore(hash, cfg', b, rel', y, x + y);
  }

  lemma InputScanned(hash: Hasher, cfg: ScanConfig, fs: Fs, rel: Path, u: set<Bytes>)
    requires cfg.chunkSize > 0 && InputsIn(hash, cfg, fs, rel, u)
    ensures var x := Scan(hash, cfg, fs, rel); x.hash == hash(HashedInput(x)) && HashedInput(x) in u
  {
  }

  lemma ChildScanned(hash: Hasher, cfg: ScanConfig, fs: Fs, rel: Path, k: Name, u: set<Bytes>)
    requires cfg.chunkSize > 0 && InputsIn(hash, cfg, fs, rel, u)
    requires Scan(hash, cfg, fs, rel).Directory? && k in Scan(hash, cfg, fs, rel).children
    ensures fs.Folder? && k in fs.entries && InputsIn(hash, cfg, fs.entries[k], rel + [k], u)
    ensures Scan(hash, cfg, fs, rel).children[k] == Scan(hash, cfg, fs.entries[k], rel + [k])
  {
  }

  lemma {:induction false} SoundIn(hash: Hasher, cfg: ScanConfig, a: Fs, rel: Path, cfg': ScanConfig, b: Fs, rel': Path,
      u: set<Bytes>)
    requires cfg.chunkSize > 0 && cfg'.chunkSize > 0 && CollisionFree(hash, u)
    requires InputsIn(hash, cfg, a, rel, u) && InputsIn(hash, cfg', b, rel', u)
    requires Comparable(Scan(hash, cfg, a, rel), Scan(hash, cfg', b, rel'))
    requires Scan(hash, cfg, a, rel).hash == Scan(hash, cfg', b, rel').hash
    ensures Scan(hash, cfg, a, rel) == Scan(hash, cfg', b, rel')
    decreases a
  {
    var x, y := Scan(hash, cfg, a, rel), Scan(hash, cfg', b, rel');
    InputScanned(hash, cfg, a, rel, u);
    InputScanned(hash, cfg', b, rel', u);
    assert HashedInput(x) == HashedInput(y);
    if x.File? {
      Chunk.FileHashSound(hash, a.data, cfg.chunkSize, b.data, cfg'.chunkSize);
    } else {
      SameInputSameNames(x, y);
      forall k | k in x.children
        ensures x.children[k] == y.children[k]
      {
        ChildScanned(hash, cfg, a, rel, k, u);
        ChildScanned(hash, cfg', b, rel', k, u);
        SoundIn(hash, cfg, a.entries[k], rel + [k], cfg', b.entries[k], rel' + [k], u);
      }
      assert x.children == y.children;
    }
  }

  /** Two comparable scans with the same root hash are identical trees, even with different chunk sizes,
      unless the hash function collides on what they fed to it. */
  lemma RootHashSound(hash: Hasher, cfg: ScanConfig, a: Fs, rel: Path, cfg': ScanConfig, b: Fs, rel': Path)
    requires cfg.chunkSize > 0 && cfg'.chunkSize > 0
    requires Comparable(Scan(hash, cfg, a, rel), Scan(hash, cfg', b, rel'))
    requires Scan(hash, cfg, a, rel).hash == Scan(hash, cfg', b, rel').hash
    requires CollisionFree(hash, ScanInputs(hash, cfg, a, rel) + ScanInputs(hash, cfg', b, rel'))
    ensures Scan(hash, cfg, a, rel) == Scan(hash, cfg', b, rel')
  {
    BothInputsIn(hash, cfg, a, cfg', b, rel, rel');
    SoundIn(hash, cfg, a, rel, cfg', b, rel', ScanInputs(hash, cfg, a, rel) + ScanInputs(hash, cfg', b, rel'));
  }

  lemma SameInputSameNames(x: Node, y: Node)
    requires x.Directory? && y.Directory? && Comparable(x, y) && HashedInput(x) == HashedInput(y)
    ensures x.children.Keys == y.children.Keys
    ensures forall k :: k in x.children ==>
      x.children[k].hash == y.children[k].hash && Comparable(x.children[k], y.children[k])
  {
    var p, q := SortedKeys(x.children.Keys), SortedKeys(y.children.Keys);
    DirInputInjective(p, x.children, q, y.children);
    forall k
      ensures k in x.children <==> k in y.children
    {
      assert k in x.children <==> k in p;
      assert k in y.children <==> k in q;
    }
    forall k | k in x.children
      ensures x.children[k].hash == y.children[k].hash && Comparable(x.children[k], y.children[k])
    {
      assert k in p;
      var i :| 0 <= i < |p| && p[i] == k;
    }
  }

  /** The hash inputs of every file of a folder are among the folder's. */
  lemma {:induction false} FileInputs(hash: Hasher, cfg: ScanConfig, fs: Fs, rel: Path, p: Path)
    requires cfg.chunkSize > 0 && !ShouldExclude(cfg.patterns, rel) && ContentAt(cfg, fs, p).Some?
    ensures Chunk.HashInputs(hash, ContentAt(cfg, fs, p).value, cfg.chunkSize) <= ScanInputs(hash, cfg, fs, rel)
    decreases p
  {
    if p != [] {
      var k, q := p[0], p[1..];
      assert p == [k] + q;
      ExcludeAppend(cfg.patterns, [k], q);
      ExcludeAppend(cfg.patterns, rel, [k]);
      assert Lookup(fs.entries[k], q).value.Regular?;
      ChildInputs(hash, cfg, fs, rel, k);
      FileInputs(hash, cfg, fs.entries[k], rel + [k], q);
    }
  }

  /** Equal file nodes at a path mean equal data on the two disks. */
  lemma FileNodeSound(hash: Hasher, cfg: ScanConfig, a: Fs, cfg': ScanConfig, b: Fs, p: Path)
    requires cfg.chunkSize > 0 && cfg'.chunkSize > 0
    requires CollisionFree(hash, ScanInputs(hash, cfg, a, []) + ScanInputs(hash, cfg', b, []))
    requires ContentAt(cfg, a, p).Some? && ContentAt(cfg', b, p).Some?
    requires FileNode(hash, ContentAt(cfg, a, p).value, cfg.chunkSize).hash
          == FileNode(hash, ContentAt(cfg', b, p).value, cfg'.chunkSize).hash
    ensures ContentAt(cfg, a, p) == ContentAt(cfg', b, p)
  {
    FileInputs(hash, cfg, a, [], p);
    FileInputs(hash, cfg', b, [], p);
    Chunk.FileHashSound(hash, ContentAt(cfg, a, p).value, cfg.chunkSize, ContentAt(cfg', b, p).value, cfg'.chunkSize);
  }

  /** Under the same assumptions the two folders hold the same data at every path. */
  lemma RootHashDeterminesFiles(hash: Hasher, cfg: ScanConfig, a: Fs, cfg': ScanConfig, b: Fs, p: Path)
    requires cfg.chunkSize > 0 && cfg'.chunkSize > 0 && a.Folder? && b.Folder?
    requires Comparable(Scan(hash, cfg, a, []), Scan(hash, cfg', b, []))
    requires Scan(hash, cfg, a, []).hash == Scan(hash, cfg', b, []).hash
    requires CollisionFree(hash, ScanInputs(hash, cfg, a, []) + ScanInputs(hash, cfg', b, []))
    ensures ContentAt(cfg, a, p) == ContentAt(cfg', b, p)
  {
    RootHashSound(hash, cfg, a, [], cfg', b, []);
    ScanFile(hash, cfg, a, p);
    ScanFile(hash, cfg', b, p);
    if ContentAt(cfg, a, p).Some? {
      FileNodeSound(hash, cfg, a, cfg', b, p);
    }
  }

  // ---- A rename is seen ----

  /** All the names, counted in bytes. */
  ghost function NamesLength(keys: seq<Name>): nat {
    if keys == [] then 0 else |keys[0]| + NamesLength(keys[1..])
  }

  lemma {:induction false} DirInputLength(keys: seq<Name>, children: map<Name, Node>)
    requires forall k :: k in keys ==> k in children
    ensures |DirInput(keys, children)| == NamesLength(keys) + 32 * |keys|
  {
    if keys != [] {
      DirInputLength(keys[1..], children);
    }
  }

  lemma {:induction false} NamesLengthWithout(names: set<Name>, k: Name)
    requires k in names
    ensures NamesLength(SortedKeys(names)) == |k| + NamesLength(SortedKeys(names - {k}))
    decreases |names|
  {
    var m := Least(names);
    if k != m {
      var rest := names - {k};
      NamesLengthWithout(names - {m}, k);
      if Least(rest) != m {
        LessAsymmetric(m, Least(rest));
      }
      assert names - {m} - {k} == rest - {m};
    }
  }

  /** Renaming one child changes the directory's hash, if the new name has another length, or the same and
      sorts to where it keeps the lengths aligned. */
  lemma RenameSeen(hash: Hasher, others: map<Name, Node>, k: Name, l: Name, node: Node)
    requires k != l && k !in others && l !in others
    requires |k| != |l| || SameLengths(SortedKeys(others.Keys + {k}), SortedKeys(others.Keys + {l}))
    requires var c, d := others[k := node], others[l := node];
      CollisionFree(hash, {DirInput(SortedKeys(c.Keys), c), DirInput(SortedKeys(d.Keys), d)})
    ensures DirDigest(hash, others[k := node]) != DirDigest(hash, others[l := node])
  {
    var c, d := others[k := node], others[l := node];
    assert c.Keys == others.Keys + {k} && d.Keys == others.Keys + {l} && k !in d;
    if |k| == |l| {
      OtherNamesSeen(hash, c, d);
    } else {
      OneMoreName(others, k, node);
      OneMoreName(others, l, node);
    }
  }

  lemma OtherNamesSeen(hash: Hasher, c: map<Name, Node>, d: map<Name, Node>)
    requires SameLengths(SortedKeys(c.Keys), SortedKeys(d.Keys)) && c.Keys != d.Keys
    requires CollisionFree(hash, {DirInput(SortedKeys(c.Keys), c), DirInput(SortedKeys(d.Keys), d)})
    ensures DirDigest(hash, c) != DirDigest(hash, d)
  {
    if DirDigest(hash, c) == DirDigest(hash, d) {
      DirDigestInjective(hash, c, d);
    }
  }

  lemma OneMoreName(others: map<Name, Node>, k: Name, node: Node)
    requires k !in others
    ensures var c := others[k := node];
      |DirInput(SortedKeys(c.Keys), c)| == NamesLength(SortedKeys(others.Keys)) + |k| + 32 * (|others.Keys| + 1)
  {
    var c := others[k := node];
    assert c.Keys == others.Keys + {k} && c.Keys - {k} == others.Keys;
    NamesLengthWithout(c.Keys, k);
    SortedKeysSize(c.Keys);
    DirInputLength(SortedKeys(c.Keys), c);
  }

  /** So renaming the only file of a folder is always seen. */
  lemma OnlyRenameSeen(hash: Hasher, k: Name, l: Name, node: Node)
    requires k != l
    requires var c, d := map[k := node], map[l := node];
      CollisionFree(hash, {DirInput(SortedKeys(c.Keys), c), DirInput(SortedKeys(d.Keys), d)})
    ensures DirDigest(hash, map[k := node]) != DirDigest(hash, map[l := node])
  {
    OneKey(k);
    OneKey(l);
    var none: map<Name, Node> := map[];
    assert none.Keys + {k} == {k} && none.Keys + {l} == {l};
    assert none[k := node] == map[k := node] && none[l := node] == map[l := node];
    RenameSeen(hash, none, k, l, node);
  }

  lemma OneKey(k: Name)
    ensures SortedKeys({k}) == [k]
  {
    assert Least({k}) == k;
    assert {k} - {k} == {};
    assert SortedKeys({}) == [];
  }

  /** Down to the path the two trees have directories with the same names. */
  ghost predicate SameAlong(a: Node, b: Node, path: Path)
    decreases path
  {
    path == [] ||
    (a.Directory? && b.Directory? && a.children.Keys == b.children.Keys && path[0] in a.children
     && SameAlong(a.children[path[0]], b.children[path[0]], path[1..]))
  }

  /** What the directories above the path feed to the hasher. */
  ghost function InputsAbove(node: Node, path: Path): set<Bytes>
    decreases path
  {
    if path == [] || node.File? || path[0] !in node.children then {}
    else {HashedInput(node)} + InputsAbove(node.children[path[0]], path[1..])
  }

  lemma OtherChildSeen(a: Node, b: Node, k: Name)
    requires a.Directory? && b.Directory? && a.children.Keys == b.children.Keys && k in a.children
    requires a.children[k].hash != b.children[k].hash
    ensures HashedInput(a) != HashedInput(b)
  {
    var keys := SortedKeys(a.children.Keys);
    assert k in keys;
    if HashedInput(a) == HashedInput(b) {
      DirInputInjective(keys, a.children, keys, b.children);
    }
  }

  /** A difference in the hash at a path, a rename for instance, shows in the root hash. */
  lemma {:induction false} DifferenceReachesRoot(hash: Hasher, a: Node, b: Node, path: Path)
    requires Consistent(hash, a) && Consistent(hash, b) && SameAlong(a, b, path)
    requires Find(a, path).Some? && Find(b, path).Some? && Find(a, path).value.hash != Find(b, path).value.hash
    requires CollisionFree(hash, InputsAbove(a, path) + InputsAbove(b, path))
    ensures a.hash != b.hash
    decreases path
  {
    if path != [] {
      var k := path[0];
      DifferenceReachesRoot(hash, a.children[k], b.children[k], path[1..]);
      OtherChildSeen(a, b, k);
      assert HashedInput(a) in InputsAbove(a, path) && HashedInput(b) in InputsAbove(b, path);
    }
  }

  // ---- The assumption behind the diff ----

  lemma {:induction false} SoundBelow(hash: Hasher, cfg: ScanConfig, a: Fs, rel: Path, cfg': ScanConfig, b: Fs,
      rel': Path, p: Path, u: set<Bytes>)
    requires cfg.chunkSize > 0 && cfg'.chunkSize > 0 && CollisionFree(hash, u)
    requires InputsIn(hash, cfg, a, rel, u) && InputsIn(hash, cfg', b, rel', u)
    requires ComparableAt(Scan(hash, cfg, a, rel), Scan(hash, cfg', b, rel'), p)
    ensures SamePathAgrees(Scan(hash, cfg, a, rel), Scan(hash, cfg', b, rel'), p)
    decreases p
  {
    var x, y := Scan(hash, cfg, a, rel), Scan(hash, cfg', b, rel');
    if Find(x, p).Some? && Find(y, p).Some? {
      if p == [] {
        if x.hash == y.hash {
          SoundIn(hash, cfg, a, rel, cfg', b, rel', u);
        }
      } else {
        var k := p[0];
        ChildScanned(hash, cfg, a, rel, k, u);
        ChildScanned(hash, cfg', b, rel', k, u);
        SoundBelow(hash, cfg, a.entries[k], rel + [k], cfg', b.entries[k], rel' + [k], p[1..], u);
      }
    }
  }

  /** Two scans meet the diff's assumption that no two different nodes at one path share a hash, if the
      hash function does not collide on what they fed to it and nodes at the same path are comparable. */
  lemma ScansNoCollision(hash: Hasher, cfg: ScanConfig, a: Fs, cfg': ScanConfig, b: Fs)
    requires cfg.chunkSize > 0 && cfg'.chunkSize > 0
    requires CollisionFree(hash, ScanInputs(hash, cfg, a, []) + ScanInputs(hash, cfg', b, []))
    requires forall p :: ComparableAt(Scan(hash, cfg, a, []), Scan(hash, cfg', b, []), p)
    ensures NoCollision(Scan(hash, cfg, a, []), Scan(hash, cfg', b, []))
  {
    var x, y := Scan(hash, cfg, a, []), Scan(hash, cfg', b, []);
    BothInputsIn(hash, cfg, a, cfg', b, [], []);
    forall p
      ensures SamePathAgrees(x, y, p)
    {
      assert ComparableAt(x, y, p);
      SoundBelow(hash, cfg, a, [], cfg', b, [], p, ScanInputs(hash, cfg, a, []) + ScanInputs(hash, cfg', b, []));
    }
  }

  ghost predicate ComparableAt(a: Node, b: Node, p: Path) {
    Find(a, p).Some? && Find(b, p).Some? ==> Comparable(Find(a, p).value, Find(b, p).value)
  }
}
