/** The Merkle tree: node building, directory hashing, lookup, insertion and removal. */
module Merkle {
  import opened ByteStrings
  import Chunk

  /** A file or directory name, as the bytes of its UTF-8 form. */
  type Name = Bytes

  /** A relative path: its normal components. */
  type Path = seq<Name>

  datatype Node =
    | File(hash: Digest, size: nat, chunks: seq<Chunk.ChunkMeta>)
    | Directory(hash: Digest, children: map<Name, Node>)

  function FileNode(hash: Hasher, data: Bytes, chunkSize: nat): Node
    requires chunkSize > 0
  {
    var chunks := Chunk.Metadata(hash, data, chunkSize);
    File(Chunk.FileHashOf(hash, chunks), |data|, chunks)
  }

  method BuildFileNode(hash: Hasher, data: Bytes, chunkSize: nat) returns (node: Node)
    requires chunkSize > 0
    ensures node == FileNode(hash, data, chunkSize)
  {
    var chunks := Chunk.Metadata(hash, data, chunkSize);
    var digest := Chunk.FileHash(hash, chunks);
    node := File(digest, |data|, chunks);
  }

  /** The bytes fed to the hasher for a directory: each name followed by the child's hash, in key order. */
  function DirInput(keys: seq<Name>, children: map<Name, Node>): Bytes
    requires forall k :: k in keys ==> k in children
  {
    if keys == [] then [] else keys[0] + children[keys[0]].hash + DirInput(keys[1..], children)
  }

  lemma DirInputStep(keys: seq<Name>, i: nat, children: map<Name, Node>)
    requires i < |keys| && forall k :: k in keys ==> k in children
    ensures DirInput(keys[i..], children)
         == keys[i] + children[keys[i]].hash + DirInput(keys[i + 1..], children)
  {
    assert keys[i..][1..] == keys[i + 1..];
  }

  /** Each name followed by the child's hash. */
  function DirParts(keys: seq<Name>, children: map<Name, Node>): (parts: seq<Bytes>)
    requires forall k :: k in keys ==> k in children
    ensures |parts| == 2 * |keys|
    ensures forall i :: 0 <= i < |keys| ==> parts[2 * i] == keys[i] && parts[2 * i + 1] == children[keys[i]].hash
  {
    if keys == [] then [] else [keys[0], children[keys[0]].hash] + DirParts(keys[1..], children)
  }

  /** A directory's hash is the hash of all names and child hashes one after the other, however many
      there are. */
  lemma DirDigestInput(hash: Hasher, children: map<Name, Node>)
    ensures DirDigest(hash, children) == hash(Concat(DirParts(SortedKeys(children.Keys), children)))
  {
    DirInputParts(SortedKeys(children.Keys), children);
  }

  lemma {:induction false} DirInputParts(keys: seq<Name>, children: map<Name, Node>)
    requires forall k :: k in keys ==> k in children
    ensures DirInput(keys, children) == Concat(DirParts(keys, children))
  {
    if keys != [] {
      DirInputParts(keys[1..], children);
      ConcatTwo(keys[0], children[keys[0]].hash, DirParts(keys[1..], children));
    }
  }

  function DirDigest(hash: Hasher, children: map<Name, Node>): Digest {
    hash(DirInput(SortedKeys(children.Keys), children))
  }

  function DirNode(hash: Hasher, children: map<Name, Node>): Node {
    Directory(DirDigest(hash, children), children)
  }

  method DirHash(hash: Hasher, children: map<Name, Node>) returns (digest: Digest)
    ensures digest == DirDigest(hash, children)
  {
    var keys := SortedKeys(children.Keys);
    var input: Bytes := [];
    for i := 0 to |keys|
      invariant input + DirInput(keys[i..], children) == DirInput(keys, children)
    {
      DirInputStep(keys, i, children);
      input := input + keys[i] + children[keys[i]].hash;
    }
    assert input == DirInput(keys, children);
    digest := hash(input);
  }

  /** Every stored directory hash is the hash of the stored children. */
  ghost predicate Consistent(hash: Hasher, node: Node) {
    node.Directory? ==>
      && node.hash == DirDigest(hash, node.children)
      && forall k :: k in node.children ==> Consistent(hash, node.children[k])
  }

  lemma ConsistentUpdate(hash: Hasher, children: map<Name, Node>, name: Name, child: Node)
    requires forall k :: k in children ==> Consistent(hash, children[k])
    requires Consistent(hash, child)
    ensures Consistent(hash, DirNode(hash, children[name := child]))
  {
  }

  lemma ConsistentDrop(hash: Hasher, children: map<Name, Node>, name: Name)
    requires forall k :: k in children ==> Consistent(hash, children[k])
    ensures Consistent(hash, DirNode(hash, children - {name}))
  {
  }

  lemma {:induction false} DirInputByHashes(keys: seq<Name>, a: map<Name, Node>, b: map<Name, Node>)
    requires forall k :: k in keys ==> k in a && k in b && a[k].hash == b[k].hash
    ensures DirInput(keys, a) == DirInput(keys, b)
  {
    if keys != [] {
      DirInputByHashes(keys[1..], a, b);
    }
  }

  // ---- Lookup ----

  function Find(node: Node, path: Path): Option<Node> {
    if path == [] then Some(node)
    else if node.Directory? && path[0] in node.children then Find(node.children[path[0]], path[1..])
    else None
  }

  method FindNode(tree: Node, path: Path) returns (r: Option<Node>)
    ensures r == Find(tree, path)
  {
    var current := tree;
    for i := 0 to |path|
      invariant Find(current, path[i..]) == Find(tree, path)
    {
      assert path[i..][1..] == path[i + 1..];
      if current.File? || path[i] !in current.children {
        return None;
      }
      current := current.children[path[i]];
    }
    r := Some(current);
  }

  ghost predicate IsDir(o: Option<Node>) {
    o.Some? && o.value.Directory?
  }

  ghost predicate IsFile(o: Option<Node>) {
    o.Some? && o.value.File?
  }

  lemma {:induction false} FindAppend(node: Node, p: Path, q: Path)
    ensures Find(node, p + q) == if Find(node, p).Some? then Find(Find(node, p).value, q) else None
  {
    if p == [] {
      assert p + q == q;
    } else {
      assert (p + q)[1..] == p[1..] + q;
      if node.Directory? && p[0] in node.children {
        FindAppend(node.children[p[0]], p[1..], q);
      }
    }
  }

  lemma FindInUpdate(hash: Hasher, node: Node, name: Name, child: Node, q: Path)
    requires node.Directory?
    ensures var after := DirNode(hash, node.children[name := child]);
      Find(after, q) == if q == [] then Some(after) else if q[0] == name then Find(child, q[1..]) else Find(node, q)
  {
  }

  lemma {:induction false} FindConsistent(hash: Hasher, node: Node, p: Path)
    requires Consistent(hash, node) && Find(node, p).Some?
    ensures Consistent(hash, Find(node, p).value)
  {
    if p != [] {
      FindConsistent(hash, node.children[p[0]], p[1..]);
    }
  }

  // ---- Insertion ----

  /** The child a path step leads to, an empty directory if there is none yet. */
  function ChildOrEmpty(hash: Hasher, children: map<Name, Node>, name: Name): Node {
    if name in children then children[name] else DirNode(hash, map[])
  }

  /** Replace or add the node at `path`, creating directories on the way and repairing hashes on
      the way back. Nothing happens at the empty path or below a file. */
  function Insert(hash: Hasher, node: Node, path: Path, newNode: Node): Node
    decreases path
  {
    if node.File? || path == [] then node
    else DirNode(hash, node.children[path[0] := InsertedChild(hash, node.children, path, newNode)])
  }

  function InsertedChild(hash: Hasher, children: map<Name, Node>, path: Path, newNode: Node): Node
    requires path != []
    decreases path, 0
  {
    if |path| == 1 then newNode
    else Insert(hash, ChildOrEmpty(hash, children, path[0]), path[1..], newNode)
  }

  method InsertRecursive(hash: Hasher, node: Node, components: Path, newNode: Node) returns (r: Node)
    ensures r == Insert(hash, node, components, newNode)
    decreases components
  {
    if node.File? || components == [] {
      return node;
    }
    var first, rest := components[0], components[1..];
    var children := node.children;
    if rest == [] {
      children := children[first := newNode];
      var digest := DirHash(hash, children);
      return Directory(digest, children);
    }
    if first !in children {
      var empty := DirHash(hash, map[]);
      children := children[first := Directory(empty, map[])];
    }
    var child := InsertRecursive(hash, children[first], rest, newNode);
    assert node.children[first := child] == children[first := child];
    children := children[first := child];
    var digest := DirHash(hash, children);
    r := Directory(digest, children);
  }

  /** Insertion takes effect: the path is not empty and no proper prefix of it is a file. */
  predicate Permitted(node: Node, path: Path)
    decreases path
  {
    && path != []
    && node.Directory?
    && (|path| > 1 && path[0] in node.children ==> Permitted(node.children[path[0]], path[1..]))
  }

  lemma {:induction false} PermittedIff(node: Node, path: Path)
    ensures Permitted(node, path) <==> path != [] && forall i :: 0 <= i < |path| ==> !IsFile(Find(node, path[..i]))
    decreases path
  {
    assert path[..0] == [];
    if path != [] && node.Directory? {
      forall i | 1 <= i < |path|
        ensures path[..i][1..] == path[1..][..i - 1] && path[..i][0] == path[0]
      {
      }
      if |path| > 1 && path[0] in node.children {
        var child, rest := node.children[path[0]], path[1..];
        PermittedIff(child, rest);
        assert forall i :: 1 <= i < |path| ==> Find(node, path[..i]) == Find(child, rest[..i - 1]);
        if forall i :: 0 <= i < |path| ==> !IsFile(Find(node, path[..i])) {
          forall j | 0 <= j < |rest|
            ensures !IsFile(Find(child, rest[..j]))
          {
            assert Find(node, path[..j + 1]) == Find(child, rest[..j]);
          }
        }
      }
    }
  }

  lemma PrefixStep(p: Path, q: Path)
    requires p != [] && q != [] && p[0] == q[0]
    ensures p <= q <==> p[1..] <= q[1..]
    ensures q <= p <==> q[1..] <= p[1..]
    ensures p <= q ==> q[|p|..] == q[1..][|p[1..]|..]
  {
    assert p == [p[0]] + p[1..] && q == [q[0]] + q[1..];
  }

  lemma {:induction false} InsertConsistent(hash: Hasher, node: Node, path: Path, newNode: Node)
    requires Consistent(hash, node) && Consistent(hash, newNode)
    ensures Consistent(hash, Insert(hash, node, path, newNode))
    decreases path
  {
    if node.Directory? && path != [] {
      if |path| > 1 {
        InsertConsistent(hash, ChildOrEmpty(hash, node.children, path[0]), path[1..], newNode);
      }
      ConsistentUpdate(hash, node.children, path[0], InsertedChild(hash, node.children, path, newNode));
    }
  }

  /** Where insertion is not permitted it leaves a consistent tree as it was. */
  lemma {:induction false} InsertNoOp(hash: Hasher, node: Node, path: Path, newNode: Node)
    requires Consistent(hash, node) && !Permitted(node, path)
    ensures Insert(hash, node, path, newNode) == node
    decreases path
  {
    if node.Directory? && |path| > 1 {
      InsertNoOp(hash, node.children[path[0]], path[1..], newNode);
      assert node.children[path[0] := node.children[path[0]]] == node.children;
    }
  }

  /** After a permitted insertion every path at or below it shows the new node, every path off
      its line shows what it showed before, and every proper prefix is a directory. */
  lemma {:induction false} InsertFind(hash: Hasher, node: Node, path: Path, newNode: Node, q: Path)
    requires Permitted(node, path)
    ensures var after := Find(Insert(hash, node, path, newNode), q);
      if path <= q then after == Find(newNode, q[|path|..])
      else if q <= path then IsDir(after)
      else after == Find(node, q)
    decreases path
  {
    FindInUpdate(hash, node, path[0], InsertedChild(hash, node.children, path, newNode), q);
    if q == [] || q[0] != path[0] {
      assert !(path <= q);
    } else if |path| == 1 {
      PrefixStep(path, q);
    } else {
      PrefixStep(path, q);
      InsertFind(hash, ChildOrEmpty(hash, node.children, path[0]), path[1..], newNode, q[1..]);
    }
  }

  // ---- Removal ----

  /** Something other than the root itself is at `path`. */
  predicate Removable(node: Node, path: Path) {
    path != [] && Find(node, path).Some?
  }

  /** The tree without `path`, hashes repaired on the way back; directories left empty stay. */
  function Remove(hash: Hasher, node: Node, path: Path): Node
    decreases path
  {
    if !Removable(node, path) then node
    else if |path| == 1 then DirNode(hash, node.children - {path[0]})
    else DirNode(hash, node.children[path[0] := Remove(hash, node.children[path[0]], path[1..])])
  }

  /** Reports true exactly when lookup finds something at the path; otherwise the tree is untouched. */
  method RemoveRecursive(hash: Hasher, node: Node, components: Path) returns (r: Node, removed: bool)
    ensures r == Remove(hash, node, components)
    ensures removed <==> components != [] && Find(node, components).Some?
    ensures !removed ==> r == node
    decreases components
  {
    if node.File? || components == [] {
      return node, false;
    }
    var first, rest := components[0], components[1..];
    var children := node.children;
    r := node;
    if rest == [] {
      removed := first in children;
      children := children - {first};
      if removed {
        assert Find(node.children[first], components[1..]).Some?;
        var digest := DirHash(hash, children);
        r := Directory(digest, children);
      }
      return;
    }
    if first !in children {
      return node, false;
    }
    var child;
    child, removed := RemoveRecursive(hash, children[first], rest);
    if removed {
      children := children[first := child];
      var digest := DirHash(hash, children);
      r := Directory(digest, children);
    }
  }

  lemma {:induction false} RemoveConsistent(hash: Hasher, node: Node, path: Path)
    requires Consistent(hash, node)
    ensures Consistent(hash, Remove(hash, node, path))
    decreases path
  {
    if Removable(node, path) {
      if |path| == 1 {
        ConsistentDrop(hash, node.children, path[0]);
      } else {
        RemoveConsistent(hash, node.children[path[0]], path[1..]);
        ConsistentUpdate(hash, node.children, path[0], Remove(hash, node.children[path[0]], path[1..]));
      }
    }
  }

  lemma FindInDrop(hash: Hasher, node: Node, name: Name, q: Path)
    requires node.Directory?
    ensures var after := DirNode(hash, node.children - {name});
      Find(after, q) == if q == [] then Some(after) else if q[0] == name then None else Find(node, q)
  {
  }

  /** After a removal the path and everything below it is gone, its ancestors remain, and every
      other path is unchanged. */
  lemma {:induction false} RemoveFind(hash: Hasher, node: Node, path: Path, q: Path)
    requires Removable(node, path)
    ensures var after := Find(Remove(hash, node, path), q);
      if path <= q then after == None
      else if q <= path then IsDir(after)
      else after == Find(node, q)
    decreases path
  {
    if |path| == 1 {
      FindInDrop(hash, node, path[0], q);
    } else {
      FindInUpdate(hash, node, path[0], Remove(hash, node.children[path[0]], path[1..]), q);
    }
    if q != [] && q[0] == path[0] {
      PrefixStep(path, q);
      if |path| > 1 {
        RemoveFind(hash, node.children[path[0]], path[1..], q[1..]);
      }
    } else {
      assert !(path <= q);
    }
  }

  // ---- Files of a tree ----

  ghost function FilePaths(node: Node): set<Path> {
    match node
    case File(_, _, _) => {[]}
    case Directory(_, children) =>
      set k, q | k in children && q in FilePaths(children[k]) :: [k] + q
  }

  lemma {:induction false} FilePathsFind(node: Node, p: Path)
    ensures p in FilePaths(node) <==> IsFile(Find(node, p))
    decreases p
  {
    if node.Directory? && p != [] {
      assert p == [p[0]] + p[1..];
      if p[0] in node.children {
        FilePathsFind(node.children[p[0]], p[1..]);
      }
      assert forall k: Name, q: Path :: [k] + q == p ==> k == p[0] && q == p[1..] by {
        forall k: Name, q: Path | [k] + q == p
          ensures k == p[0] && q == p[1..]
        {
          assert ([k] + q)[0] == k && ([k] + q)[1..] == q;
        }
      }
    }
  }
}
