/** Counting: how many files a tree or a diff carries, and what an update does to the total size. */
module MerkleCount {
  import opened ByteStrings
  import opened Merkle
  import opened MerkleDiff
  import opened MerklePatch
  import MerkleReport

  function CountFiles(node: Node): nat {
    match node
    case File(_, _, _) => 1
    case Directory(_, children) => Sum(map k | k in children :: CountFiles(children[k]))
  }

  function CountSize(node: Node): nat {
    match node
    case File(_, size, _) => size
    case Directory(_, children) => Sum(map k | k in children :: CountSize(children[k]))
  }

  // ---- Sizes of unions over children ----

  ghost function Prepended(k: Name, s: set<Path>): set<Path> {
    set q | q in s :: [k] + q
  }

  ghost function Joined(m: map<Name, set<Path>>): set<Path> {
    set k, q | k in m && q in m[k] :: [k] + q
  }

  ghost function Sizes(m: map<Name, set<Path>>): map<Name, nat> {
    map k | k in m :: |m[k]|
  }

  lemma {:induction false} PrependedSize(k: Name, s: set<Path>)
    ensures |Prepended(k, s)| == |s|
  {
    if s != {} {
      var q :| q in s;
      PrependedSize(k, s - {q});
      assert Prepended(k, s) == Prepended(k, s - {q}) + {[k] + q};
      assert [k] + q !in Prepended(k, s - {q}) by {
        forall r | r in s - {q}
          ensures [k] + r != [k] + q
        {
          assert ([k] + r)[1..] == r && ([k] + q)[1..] == q;
        }
      }
    }
  }

  lemma JoinedSplit(m: map<Name, set<Path>>, k: Name)
    requires k in m
    ensures Joined(m) == Prepended(k, m[k]) + Joined(m - {k})
    ensures Prepended(k, m[k]) !! Joined(m - {k})
  {
    forall p | p in Prepended(k, m[k])
      ensures p !in Joined(m - {k})
    {
      assert p[0] == k;
    }
  }

  lemma {:induction false} JoinedSize(m: map<Name, set<Path>>)
    ensures |Joined(m)| == Sum(Sizes(m))
    decreases |m|
  {
    if m == map[] {
      assert Joined(m) == {};
      assert Sizes(m) == map[];
    } else {
      var k := Least(m.Keys);
      assert Sizes(m) - {k} == Sizes(m - {k});
      SumDrop(Sizes(m), k);
      JoinedSplit(m, k);
      PrependedSize(k, m[k]);
      assert (m - {k}).Keys == m.Keys - {k};
      assert |m - {k}| < |m| by {
        assert |(m - {k}).Keys| < |m.Keys|;
      }
      JoinedSize(m - {k});
    }
  }

  /** `count_files` is the number of file paths. */
  lemma {:induction false} CountFilesExact(node: Node)
    ensures CountFiles(node) == |FilePaths(node)|
    decreases node
  {
    if node.Directory? {
      var paths := map k | k in node.children :: FilePaths(node.children[k]);
      forall k | k in node.children
        ensures CountFiles(node.children[k]) == |paths[k]|
      {
        CountFilesExact(node.children[k]);
      }
      JoinedSize(paths);
      assert Sizes(paths) == map k | k in node.children :: CountFiles(node.children[k]);
      assert FilePaths(node) == Joined(paths);
    }
  }

  // ---- How many files a diff carries ----

  function CarriedBy(e: DiffEntry): nat {
    match e
    case Added(_, node) => CountFiles(node)
    case Modified(_, _, node) => CountFiles(node)
    case Removed(_, _) => 0
  }

  function Carried(es: seq<DiffEntry>): nat {
    if es == [] then 0 else CarriedBy(es[0]) + Carried(es[1..])
  }

  lemma {:induction false} CarriedAppend(a: seq<DiffEntry>, b: seq<DiffEntry>)
    ensures Carried(a + b) == Carried(a) + Carried(b)
  {
    if a == [] {
      assert a + b == b;
    } else {
      assert (a + b)[1..] == a[1..] + b;
      CarriedAppend(a[1..], b);
    }
  }

  lemma {:induction false} RemovedCarriesNothing(was: Node, now: Node, keys: seq<Name>, prefix: Path)
    requires was.Directory? && now.Directory? && forall k :: k in keys ==> k in was.children
    ensures Carried(RemovedChildren(was, now, keys, prefix)) == 0
  {
    if keys != [] {
      CarriedAppend(RemovedChild(was, now, keys[0], prefix), RemovedChildren(was, now, keys[1..], prefix));
      RemovedCarriesNothing(was, now, keys[1..], prefix);
    }
  }

  /** The files of `now` whose node differs from what `was` holds at the same path. */
  ghost function Changed(was: Node, now: Node): set<Path> {
    set p | p in FilePaths(now) && Find(was, p) != Find(now, p)
  }

  ghost function ChangedChild(was: Node, now: Node, k: Name): set<Path>
    requires was.Directory? && now.Directory? && k in now.children
  {
    if k in was.children then Changed(was.children[k], now.children[k]) else FilePaths(now.children[k])
  }

  ghost function ChangedChildren(was: Node, now: Node): map<Name, set<Path>>
    requires was.Directory? && now.Directory?
  {
    map k | k in now.children :: ChangedChild(was, now, k)
  }

  lemma ChangedBelow(was: Node, now: Node, k: Name, q: Path)
    requires was.Directory? && now.Directory?
    ensures [k] + q in Changed(was, now) <==> k in now.children && q in ChangedChild(was, now, k)
  {
    MerkleReport.FindStep(was, k, q);
    MerkleReport.FindStep(now, k, q);
    FilePathsFind(now, [k] + q);
    if k in now.children {
      FilePathsFind(now.children[k], q);
    }
  }

  lemma ChangedJoined(was: Node, now: Node)
    requires was.Directory? && now.Directory?
    ensures Changed(was, now) == Joined(ChangedChildren(was, now))
  {
    forall p
      ensures p in Changed(was, now) <==> p in Joined(ChangedChildren(was, now))
    {
      FilePathsFind(now, p);
      if p != [] {
        assert p == [p[0]] + p[1..];
        ChangedBelow(was, now, p[0], p[1..]);
      }
      if p in Joined(ChangedChildren(was, now)) {
        var k, q :| k in now.children && q in ChangedChild(was, now, k) && p == [k] + q;
        ChangedBelow(was, now, k, q);
      }
    }
  }

  /** Sum along the iteration order of a map. */
  function SumSeq(keys: seq<Name>, m: map<Name, nat>): nat
    requires forall k :: k in keys ==> k in m
  {
    if keys == [] then 0 else m[keys[0]] + SumSeq(keys[1..], m)
  }

  lemma {:induction false} SumSeqLocal(keys: seq<Name>, m: map<Name, nat>, n: map<Name, nat>)
    requires forall k :: k in keys ==> k in m && k in n && m[k] == n[k]
    ensures SumSeq(keys, m) == SumSeq(keys, n)
  {
    if keys != [] {
      SumSeqLocal(keys[1..], m, n);
    }
  }

  lemma {:induction false} SumInOrder(m: map<Name, nat>)
    ensures SumSeq(SortedKeys(m.Keys), m) == Sum(m)
    decreases |m|
  {
    if m != map[] {
      var k := Least(m.Keys);
      var rest := m - {k};
      assert rest.Keys == m.Keys - {k};
      DropSize(m, k);
      SumInOrder(rest);
      SumSeqLocal(SortedKeys(rest.Keys), m, rest);
    }
  }

  lemma {:induction false} CarriedChildren(was: Node, now: Node, keys: seq<Name>, prefix: Path)
    requires was.Directory? && now.Directory? && NoCollision(was, now)
    requires forall k :: k in keys ==> k in now.children
    ensures Carried(DiffChildren(was, now, keys, prefix)) == SumSeq(keys, Sizes(ChangedChildren(was, now)))
    decreases now, 0, |keys|
  {
    if keys != [] {
      var k := keys[0];
      if k in was.children {
        NoCollisionChild(was, now, k);
        DiffCarries(was.children[k], now.children[k], prefix + [k]);
      } else {
        CountFilesExact(now.children[k]);
      }
      CarriedChildren(was, now, keys[1..], prefix);
      CarriedAppend(DiffChild(was, now, k, prefix), DiffChildren(was, now, keys[1..], prefix));
    }
  }

  /** The entries of a diff carry exactly as many files as differ: `count_files` summed over the
      added and modified nodes is the number of files of `now` that `was` does not hold alike. */
  lemma {:induction false} DiffCarries(was: Node, now: Node, prefix: Path)
    requires NoCollision(was, now)
    ensures Carried(Diff(was, now, prefix)) == |Changed(was, now)|
    decreases now, 1, 0
  {
    if was.hash == now.hash {
      NoCollisionRoot(was, now);
      assert Changed(was, now) == {};
    } else if was.Directory? && now.Directory? {
      var keys := SortedKeys(now.children.Keys);
      CarriedChildren(was, now, keys, prefix);
      assert Sizes(ChangedChildren(was, now)).Keys == now.children.Keys;
      SumInOrder(Sizes(ChangedChildren(was, now)));
      JoinedSize(ChangedChildren(was, now));
      ChangedJoined(was, now);
      RemovedCarriesNothing(was, now, SortedKeys(was.children.Keys), prefix);
      CarriedAppend(DiffChildren(was, now, keys, prefix),
        RemovedChildren(was, now, SortedKeys(was.children.Keys), prefix));
    } else {
      MismatchChanges(was, now);
      CountFilesExact(now);
      assert [Modified(prefix, was, now)][1..] == [];
    }
  }

  lemma MismatchChanges(was: Node, now: Node)
    requires was != now && !(was.Directory? && now.Directory?)
    ensures Changed(was, now) == FilePaths(now)
  {
    forall p | p in FilePaths(now)
      ensures Find(was, p) != Find(now, p)
    {
      FilePathsFind(now, p);
    }
  }

  // ---- Total size ----

  function SizeAt(node: Node, path: Path): nat {
    if Find(node, path).Some? then CountSize(Find(node, path).value) else 0
  }

  ghost function ChildSizes(children: map<Name, Node>): map<Name, nat> {
    map k | k in children :: CountSize(children[k])
  }

  lemma SizeUpdate(hash: Hasher, children: map<Name, Node>, k: Name, child: Node)
    ensures CountSize(DirNode(hash, children[k := child])) + (if k in children then CountSize(children[k]) else 0)
         == Sum(ChildSizes(children)) + CountSize(child)
  {
    assert ChildSizes(children[k := child]) == ChildSizes(children)[k := CountSize(child)];
    SumUpdate(ChildSizes(children), k, CountSize(child));
  }

  lemma SizeOfChildren(node: Node)
    requires node.Directory?
    ensures CountSize(node) == Sum(ChildSizes(node.children))
  {
    assert ChildSizes(node.children) == map k | k in node.children :: CountSize(node.children[k]);
  }

  lemma SizeAtStep(node: Node, path: Path)
    requires node.Directory? && path != []
    ensures SizeAt(node, path) == if path[0] in node.children then SizeAt(node.children[path[0]], path[1..]) else 0
    ensures |path| == 1 && path[0] in node.children ==> SizeAt(node, path) == CountSize(node.children[path[0]])
  {
  }

  /** A permitted insertion changes the total size by the new node's size minus the replaced one's. */
  lemma {:induction false} InsertSize(hash: Hasher, node: Node, path: Path, newNode: Node)
    requires Permitted(node, path)
    ensures CountSize(Insert(hash, node, path, newNode)) + SizeAt(node, path) == CountSize(node) + CountSize(newNode)
    decreases path
  {
    var k := path[0];
    SizeOfChildren(node);
    SizeAtStep(node, path);
    SizeUpdate(hash, node.children, k, InsertedChild(hash, node.children, path, newNode));
    if |path| > 1 {
      var child := ChildOrEmpty(hash, node.children, k);
      InsertSize(hash, child, path[1..], newNode);
      if k !in node.children {
        SizeOfChildren(child);
        assert ChildSizes(map[]) == map[];
      }
    }
  }

  /** A removal takes away exactly the size of what was there. */
  lemma {:induction false} RemoveSize(hash: Hasher, node: Node, path: Path)
    requires Removable(node, path)
    ensures CountSize(Remove(hash, node, path)) + SizeAt(node, path) == CountSize(node)
    decreases path
  {
    var k := path[0];
    var sizes := ChildSizes(node.children);
    SizeOfChildren(node);
    SizeAtStep(node, path);
    if |path| == 1 {
      SizeOfChildren(DirNode(hash, node.children - {k}));
      assert ChildSizes(node.children - {k}) == sizes - {k};
      SumDrop(sizes, k);
    } else {
      RemoveSize(hash, node.children[k], path[1..]);
      SizeUpdate(hash, node.children, k, Remove(hash, node.children[k], path[1..]));
    }
  }
}
