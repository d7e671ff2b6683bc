/** Applying a diff: patching the old tree with `diff(old, new)` rebuilds the new one, hashes included. */
module MerklePatch {
  import opened ByteStrings
  import opened Merkle
  import opened MerkleDiff

  /** No two different nodes at the same path of the two trees share a hash. */
  ghost predicate NoCollision(a: Node, b: Node) {
    forall p :: SamePathAgrees(a, b, p)
  }

  ghost predicate SamePathAgrees(a: Node, b: Node, p: Path) {
    Find(a, p).Some? && Find(b, p).Some? && Find(a, p).value.hash == Find(b, p).value.hash ==>
      Find(a, p).value == Find(b, p).value
  }

  lemma NoCollisionRoot(a: Node, b: Node)
    requires NoCollision(a, b) && a.hash == b.hash
    ensures a == b
  {
    assert SamePathAgrees(a, b, []);
  }

  lemma NoCollisionChild(a: Node, b: Node, k: Name)
    requires NoCollision(a, b)
    requires a.Directory? && b.Directory? && k in a.children && k in b.children
    ensures NoCollision(a.children[k], b.children[k])
  {
    forall p
      ensures SamePathAgrees(a.children[k], b.children[k], p)
    {
      assert SamePathAgrees(a, b, [k] + p);
      assert ([k] + p)[1..] == p;
    }
  }

  function Apply(hash: Hasher, tree: Node, e: DiffEntry): Node {
    match e
    case Added(path, node) => Insert(hash, tree, path, node)
    case Modified(path, _, node) => Insert(hash, tree, path, node)
    case Removed(path, _) => Remove(hash, tree, path)
  }

  function ApplyAll(hash: Hasher, tree: Node, es: seq<DiffEntry>): Node
    decreases es
  {
    if es == [] then tree else ApplyAll(hash, Apply(hash, tree, es[0]), es[1..])
  }

  lemma {:induction false} ApplyAppend(hash: Hasher, tree: Node, a: seq<DiffEntry>, b: seq<DiffEntry>)
    ensures ApplyAll(hash, tree, a + b) == ApplyAll(hash, ApplyAll(hash, tree, a), b)
    decreases a
  {
    if a == [] {
      assert a + b == b;
    } else {
      assert (a + b)[1..] == a[1..] + b;
      ApplyAppend(hash, Apply(hash, tree, a[0]), a[1..], b);
    }
  }

  // ---- Replacing the node at an existing path ----

  function Graft(hash: Hasher, tree: Node, path: Path, node: Node): Node
    requires Find(tree, path).Some?
    decreases path
  {
    if path == [] then node
    else DirNode(hash, tree.children[path[0] := Graft(hash, tree.children[path[0]], path[1..], node)])
  }

  lemma {:induction false} GraftSame(hash: Hasher, tree: Node, path: Path)
    requires Consistent(hash, tree) && Find(tree, path).Some?
    ensures Graft(hash, tree, path, Find(tree, path).value) == tree
    decreases path
  {
    if path != [] {
      GraftSame(hash, tree.children[path[0]], path[1..]);
      assert tree.children[path[0] := tree.children[path[0]]] == tree.children;
    }
  }

  lemma {:induction false} GraftGraft(hash: Hasher, tree: Node, path: Path, a: Node, b: Node)
    requires Find(tree, path).Some?
    ensures Find(Graft(hash, tree, path, a), path) == Some(a)
    ensures Graft(hash, Graft(hash, tree, path, a), path, b) == Graft(hash, tree, path, b)
    decreases path
  {
    if path != [] {
      var k, child := path[0], tree.children[path[0]];
      GraftGraft(hash, child, path[1..], a, b);
      var x, y := Graft(hash, child, path[1..], a), Graft(hash, child, path[1..], b);
      assert tree.children[k := x][k := y] == tree.children[k := y];
    }
  }

  lemma {:induction false} GraftConsistent(hash: Hasher, tree: Node, path: Path, node: Node)
    requires Consistent(hash, tree) && Consistent(hash, node) && Find(tree, path).Some?
    ensures Consistent(hash, Graft(hash, tree, path, node))
    decreases path
  {
    if path != [] {
      GraftConsistent(hash, tree.children[path[0]], path[1..], node);
      ConsistentUpdate(hash, tree.children, path[0], Graft(hash, tree.children[path[0]], path[1..], node));
    }
  }

  /** Inserting over an existing node replaces it. */
  lemma {:induction false} InsertIsGraft(hash: Hasher, tree: Node, path: Path, node: Node)
    requires Find(tree, path).Some? && path != []
    ensures Insert(hash, tree, path, node) == Graft(hash, tree, path, node)
    decreases path
  {
    if |path| > 1 {
      InsertIsGraft(hash, tree.children[path[0]], path[1..], node);
    }
  }

  lemma {:induction false} InsertChild(hash: Hasher, tree: Node, path: Path, k: Name, node: Node)
    requires IsDir(Find(tree, path))
    ensures Insert(hash, tree, path + [k], node)
         == Graft(hash, tree, path, DirNode(hash, Find(tree, path).value.children[k := node]))
    decreases path
  {
    var p := path + [k];
    if path != [] {
      assert p[1..] == path[1..] + [k] && p[0] == path[0];
      InsertChild(hash, tree.children[path[0]], path[1..], k, node);
    }
  }

  lemma {:induction false} RemoveChild(hash: Hasher, tree: Node, path: Path, k: Name)
    requires IsDir(Find(tree, path)) && k in Find(tree, path).value.children
    ensures Remove(hash, tree, path + [k])
         == Graft(hash, tree, path, DirNode(hash, Find(tree, path).value.children - {k}))
    decreases path
  {
    var p := path + [k];
    FindAppend(tree, path, [k]);
    if path != [] {
      assert p[1..] == path[1..] + [k] && p[0] == path[0];
      RemoveChild(hash, tree.children[path[0]], path[1..], k);
    }
  }

  lemma GraftChild(hash: Hasher, tree: Node, path: Path, k: Name, node: Node)
    requires IsDir(Find(tree, path)) && k in Find(tree, path).value.children
    ensures Find(tree, path + [k]) == Some(Find(tree, path).value.children[k])
    ensures Graft(hash, tree, path + [k], node)
         == Graft(hash, tree, path, DirNode(hash, Find(tree, path).value.children[k := node]))
  {
    FindAppend(tree, path, [k]);
    InsertIsGraft(hash, tree, path + [k], node);
    InsertChild(hash, tree, path, k, node);
  }

  /** What a changed directory at `path` leaves for the steps after it. */
  lemma GraftStep(hash: Hasher, tree: Node, path: Path, a: Node, b: Node)
    requires Consistent(hash, tree) && Consistent(hash, a) && Find(tree, path).Some?
    ensures var next := Graft(hash, tree, path, a);
      && Consistent(hash, next)
      && Find(next, path) == Some(a)
      && Graft(hash, next, path, b) == Graft(hash, tree, path, b)
  {
    GraftConsistent(hash, tree, path, a);
    GraftGraft(hash, tree, path, a, b);
  }

  // ---- The patch theorem ----

  /** Patching below `prefix` of any consistent tree that holds `was` there puts `now` there. */
  lemma {:induction false} PatchAt(hash: Hasher, tree: Node, was: Node, now: Node, prefix: Path)
    requires Consistent(hash, tree) && Consistent(hash, now) && NoCollision(was, now)
    requires Find(tree, prefix) == Some(was)
    requires prefix != [] || (was.Directory? && now.Directory?)
    ensures ApplyAll(hash, tree, Diff(was, now, prefix)) == Graft(hash, tree, prefix, now)
    decreases now, 1, 0
  {
    if was.hash == now.hash {
      NoCollisionRoot(was, now);
      GraftSame(hash, tree, prefix);
    } else if was.Directory? && now.Directory? {
      PatchDirectory(hash, tree, was, now, prefix);
    } else {
      InsertIsGraft(hash, tree, prefix, now);
      ApplySingle(hash, tree, Modified(prefix, was, now));
    }
  }

  lemma {:induction false} PatchDirectory(hash: Hasher, tree: Node, was: Node, now: Node, prefix: Path)
    requires Consistent(hash, tree) && Consistent(hash, now) && NoCollision(was, now)
    requires Find(tree, prefix) == Some(was) && was.Directory? && now.Directory? && was.hash != now.hash
    ensures ApplyAll(hash, tree, Diff(was, now, prefix)) == Graft(hash, tree, prefix, now)
    decreases now, 0, |now.children| + 2
  {
    var newKeys, oldKeys := SortedKeys(now.children.Keys), SortedKeys(was.children.Keys);
    SortedKeysDistinct(now.children.Keys);
    SortedKeysDistinct(was.children.Keys);
    SortedKeysSize(now.children.Keys);
    FindConsistent(hash, tree, prefix);
    PatchChildren(hash, tree, was, was, now, newKeys, prefix);
    var merged := DirNode(hash, Overlay(was.children, now.children, newKeys));
    var mid := Graft(hash, tree, prefix, merged);
    OverlayConsistent(hash, was, now, newKeys);
    GraftStep(hash, tree, prefix, merged, now);
    PatchRemoved(hash, mid, merged, was, now, oldKeys, prefix);
    MergeTrim(was, now, newKeys, oldKeys);
    assert DirNode(hash, now.children) == now;
    ApplyAppend(hash, tree, DiffChildren(was, now, newKeys, prefix), RemovedChildren(was, now, oldKeys, prefix));
  }

  lemma MergeTrim(was: Node, now: Node, newKeys: seq<Name>, oldKeys: seq<Name>)
    requires was.Directory? && now.Directory?
    requires forall k :: k in newKeys <==> k in now.children
    requires forall k :: k in oldKeys <==> k in was.children
    ensures Overlay(was.children, now.children, newKeys) - Gone(now, oldKeys) == now.children
  {
    var m := Overlay(was.children, now.children, newKeys) - Gone(now, oldKeys);
    assert m.Keys == now.children.Keys;
    assert forall k :: k in m ==> m[k] == now.children[k];
  }

  lemma OverlayConsistent(hash: Hasher, was: Node, now: Node, keys: seq<Name>)
    requires Consistent(hash, was) && Consistent(hash, now) && was.Directory? && now.Directory?
    requires forall k :: k in keys ==> k in now.children
    ensures Consistent(hash, DirNode(hash, Overlay(was.children, now.children, keys)))
  {
  }

  lemma ApplySingle(hash: Hasher, tree: Node, e: DiffEntry)
    ensures ApplyAll(hash, tree, [e]) == Apply(hash, tree, e)
  {
    assert [e][1..] == [];
  }

  /** `base` with the entries of `top` at `keys` written over it. */
  ghost function Overlay(base: map<Name, Node>, top: map<Name, Node>, keys: seq<Name>): map<Name, Node>
    requires forall k :: k in keys ==> k in top
  {
    base + map k | k in keys :: top[k]
  }

  ghost function Gone(now: Node, keys: seq<Name>): set<Name>
    requires now.Directory?
  {
    set k | k in keys && k !in now.children
  }

  /** The current children agree with the old ones on the names still to be visited. */
  ghost predicate Pending(cur: map<Name, Node>, was: map<Name, Node>, keys: seq<Name>) {
    && (forall k :: k in keys ==> (k in cur <==> k in was))
    && (forall k :: k in keys && k in cur && k in was ==> cur[k] == was[k])
  }

  lemma HeadTail(keys: seq<Name>)
    requires keys != []
    ensures forall k :: k in keys <==> k == keys[0] || k in keys[1..]
  {
  }

  lemma PendingStep(cur: map<Name, Node>, was: map<Name, Node>, keys: seq<Name>, node: Node)
    requires Distinct(keys) && keys != [] && Pending(cur, was, keys)
    ensures Pending(cur, was, [keys[0]])
    ensures Pending(cur[keys[0] := node], was, keys[1..])
  {
    HeadTail(keys);
    assert forall k :: k in [keys[0]] ==> k == keys[0];
  }

  lemma OverlayStep(cur: map<Name, Node>, top: map<Name, Node>, keys: seq<Name>)
    requires keys != [] && forall k :: k in keys ==> k in top
    ensures Overlay(cur[keys[0] := top[keys[0]]], top, keys[1..]) == Overlay(cur, top, keys)
  {
    HeadTail(keys);
    var a, b := Overlay(cur[keys[0] := top[keys[0]]], top, keys[1..]), Overlay(cur, top, keys);
    assert a.Keys == b.Keys;
    assert forall k :: k in a ==> a[k] == b[k];
  }

  lemma GoneStep(children: map<Name, Node>, now: Node, keys: seq<Name>)
    requires now.Directory? && keys != []
    ensures children - Gone(now, [keys[0]]) - Gone(now, keys[1..]) == children - Gone(now, keys)
  {
    HeadTail(keys);
    assert Gone(now, keys) == Gone(now, [keys[0]]) + Gone(now, keys[1..]);
  }

  lemma {:induction false} PatchChild(hash: Hasher, tree: Node, cur: Node, was: Node, now: Node, k: Name, prefix: Path)
    requires Consistent(hash, tree) && Consistent(hash, now) && NoCollision(was, now)
    requires now.Directory? && k in now.children && cur.Directory? && was.Directory?
    requires Pending(cur.children, was.children, [k])
    requires Find(tree, prefix) == Some(cur)
    ensures ApplyAll(hash, tree, DiffChild(was, now, k, prefix))
         == Graft(hash, tree, prefix, DirNode(hash, cur.children[k := now.children[k]]))
    decreases now, 0, 0
  {
    assert k in [k];
    if k in was.children {
      GraftChild(hash, tree, prefix, k, now.children[k]);
      NoCollisionChild(was, now, k);
      PatchAt(hash, tree, was.children[k], now.children[k], prefix + [k]);
    } else {
      InsertChild(hash, tree, prefix, k, now.children[k]);
      ApplySingle(hash, tree, Added(prefix + [k], now.children[k]));
    }
  }

  lemma {:induction false} PatchChildren(hash: Hasher, tree: Node, cur: Node, was: Node, now: Node, keys: seq<Name>,
      prefix: Path)
    requires Consistent(hash, tree) && Consistent(hash, now) && NoCollision(was, now)
    requires now.Directory? && (forall k :: k in keys ==> k in now.children) && Distinct(keys)
    requires cur.Directory? && was.Directory? && Pending(cur.children, was.children, keys)
    requires Find(tree, prefix) == Some(cur)
    ensures ApplyAll(hash, tree, DiffChildren(was, now, keys, prefix))
         == Graft(hash, tree, prefix, DirNode(hash, Overlay(cur.children, now.children, keys)))
    decreases now, 0, |keys| + 1
  {
    FindConsistent(hash, tree, prefix);
    if keys == [] {
      assert Overlay(cur.children, now.children, keys) == cur.children;
      GraftSame(hash, tree, prefix);
    } else {
      var k := keys[0];
      PendingStep(cur.children, was.children, keys, now.children[k]);
      OverlayStep(cur.children, now.children, keys);
      PatchChild(hash, tree, cur, was, now, k, prefix);
      var cur' := DirNode(hash, cur.children[k := now.children[k]]);
      var tree' := Graft(hash, tree, prefix, cur');
      ConsistentUpdate(hash, cur.children, k, now.children[k]);
      GraftStep(hash, tree, prefix, cur', DirNode(hash, Overlay(cur.children, now.children, keys)));
      PatchChildren(hash, tree', cur', was, now, keys[1..], prefix);
      ApplyAppend(hash, tree, DiffChild(was, now, k, prefix), DiffChildren(was, now, keys[1..], prefix));
    }
  }

  lemma PatchRemovedChild(hash: Hasher, tree: Node, cur: Node, was: Node, now: Node, k: Name, prefix: Path)
    requires Consistent(hash, tree) && Find(tree, prefix) == Some(cur)
    requires cur.Directory? && was.Directory? && now.Directory? && k in was.children && k in cur.children
    ensures var cur' := DirNode(hash, cur.children - Gone(now, [k]));
      && ApplyAll(hash, tree, RemovedChild(was, now, k, prefix)) == Graft(hash, tree, prefix, cur')
      && Consistent(hash, cur')
  {
    FindConsistent(hash, tree, prefix);
    if k in now.children {
      assert cur.children - Gone(now, [k]) == cur.children;
      GraftSame(hash, tree, prefix);
    } else {
      assert Gone(now, [k]) == {k};
      RemoveChild(hash, tree, prefix, k);
      ConsistentDrop(hash, cur.children, k);
      ApplySingle(hash, tree, Removed(prefix + [k], was.children[k]));
    }
  }

  lemma {:induction false} PatchRemoved(hash: Hasher, tree: Node, cur: Node, was: Node, now: Node, keys: seq<Name>,
      prefix: Path)
    requires Consistent(hash, tree) && Find(tree, prefix) == Some(cur)
    requires cur.Directory? && was.Directory? && now.Directory? && Distinct(keys)
    requires forall k :: k in keys ==> k in was.children && k in cur.children
    ensures ApplyAll(hash, tree, RemovedChildren(was, now, keys, prefix))
         == Graft(hash, tree, prefix, DirNode(hash, cur.children - Gone(now, keys)))
    decreases keys
  {
    if keys == [] {
      FindConsistent(hash, tree, prefix);
      assert cur.children - Gone(now, keys) == cur.children;
      GraftSame(hash, tree, prefix);
    } else {
      var k := keys[0];
      PatchRemovedChild(hash, tree, cur, was, now, k, prefix);
      GoneStep(cur.children, now, keys);
      var cur' := DirNode(hash, cur.children - Gone(now, [k]));
      GraftStep(hash, tree, prefix, cur', DirNode(hash, cur.children - Gone(now, keys)));
      PatchRemoved(hash, Graft(hash, tree, prefix, cur'), cur', was, now, keys[1..], prefix);
      ApplyAppend(hash, tree, RemovedChild(was, now, k, prefix), RemovedChildren(was, now, keys[1..], prefix));
    }
  }

  /** Diff then patch is the identity: the entries of `diff(was, now)`, applied in order to
      `was`, give exactly `now`, every stored hash included. */
  lemma DiffThenPatch(hash: Hasher, was: Node, now: Node)
    requires was.Directory? && now.Directory?
    requires Consistent(hash, was) && Consistent(hash, now) && NoCollision(was, now)
    ensures ApplyAll(hash, was, Diff(was, now, [])) == now
  {
    PatchAt(hash, was, was, now, []);
  }
}
