/** The hash-pruned structural diff. */
module MerkleDiff {
  import opened ByteStrings
  import opened Merkle

  datatype DiffEntry =
    | Added(path: Path, node: Node)
    | Removed(path: Path, node: Node)
    | Modified(path: Path, before: Node, after: Node)

  function Diff(was: Node, now: Node, prefix: Path): seq<DiffEntry>
    decreases now, 1, 0
  {
    if was.hash == now.hash then []
    else if was.Directory? && now.Directory? then
      DiffChildren(was, now, SortedKeys(now.children.Keys), prefix)
      + RemovedChildren(was, now, SortedKeys(was.children.Keys), prefix)
    else [Modified(prefix, was, now)]
  }

  function DiffChild(was: Node, now: Node, name: Name, prefix: Path): seq<DiffEntry>
    requires was.Directory? && now.Directory? && name in now.children
    decreases now, 0, 0
  {
    if name in was.children
    then Diff(was.children[name], now.children[name], prefix + [name])
    else [Added(prefix + [name], now.children[name])]
  }

  function DiffChildren(was: Node, now: Node, keys: seq<Name>, prefix: Path): seq<DiffEntry>
    requires was.Directory? && now.Directory? && forall k :: k in keys ==> k in now.children
    decreases now, 0, |keys|
  {
    if keys == [] then []
    else DiffChild(was, now, keys[0], prefix) + DiffChildren(was, now, keys[1..], prefix)
  }

  function RemovedChild(was: Node, now: Node, name: Name, prefix: Path): seq<DiffEntry>
    requires was.Directory? && now.Directory? && name in was.children
  {
    if name in now.children then [] else [Removed(prefix + [name], was.children[name])]
  }

  function RemovedChildren(was: Node, now: Node, keys: seq<Name>, prefix: Path): seq<DiffEntry>
    requires was.Directory? && now.Directory? && forall k :: k in keys ==> k in was.children
  {
    if keys == [] then []
    else RemovedChild(was, now, keys[0], prefix) + RemovedChildren(was, now, keys[1..], prefix)
  }

  lemma AppendAssociative(a: seq<DiffEntry>, b: seq<DiffEntry>, c: seq<DiffEntry>)
    ensures a + b + c == a + (b + c)
  {
  }

  method DiffRecursive(was: Node, now: Node, prefix: Path, acc: seq<DiffEntry>) returns (result: seq<DiffEntry>)
    ensures result == acc + Diff(was, now, prefix)
    decreases now, 1
  {
    result := acc;
    if was.hash == now.hash {
      return;
    }
    if was.Directory? && now.Directory? {
      result := VisitNewChildren(was, now, prefix, result);
      result := VisitOldChildren(was, now, prefix, result);
      AppendAssociative(acc, DiffChildren(was, now, SortedKeys(now.children.Keys), prefix),
                        RemovedChildren(was, now, SortedKeys(was.children.Keys), prefix));
    } else {
      result := result + [Modified(prefix, was, now)];
    }
  }

  /** The first loop: descend into common children, report added ones. */
  method VisitNewChildren(was: Node, now: Node, prefix: Path, acc: seq<DiffEntry>) returns (result: seq<DiffEntry>)
    requires was.Directory? && now.Directory?
    ensures result == acc + DiffChildren(was, now, SortedKeys(now.children.Keys), prefix)
    decreases now, 0
  {
    var keys := SortedKeys(now.children.Keys);
    result := acc;
    for i := 0 to |keys|
      invariant result + DiffChildren(was, now, keys[i..], prefix) == acc + DiffChildren(was, now, keys, prefix)
    {
      assert keys[i..][1..] == keys[i + 1..];
      var name, before := keys[i], result;
      if name in was.children {
        result := DiffRecursive(was.children[name], now.children[name], prefix + [name], result);
      } else {
        result := result + [Added(prefix + [name], now.children[name])];
      }
      assert result == before + DiffChild(was, now, name, prefix);
    }
    assert keys[|keys|..] == [];
  }

  lemma RemovedStep(was: Node, now: Node, keys: seq<Name>, prefix: Path, i: nat, acc: seq<DiffEntry>)
    requires was.Directory? && now.Directory? && i < |keys| && forall k :: k in keys ==> k in was.children
    ensures acc + RemovedChildren(was, now, keys[i..], prefix)
         == (if keys[i] in now.children then acc else acc + [Removed(prefix + [keys[i]], was.children[keys[i]])])
            + RemovedChildren(was, now, keys[i + 1..], prefix)
  {
    assert keys[i..][1..] == keys[i + 1..];
    assert keys[i..][0] == keys[i];
  }

  /** The second loop: report the children that are gone. */
  method VisitOldChildren(was: Node, now: Node, prefix: Path, acc: seq<DiffEntry>) returns (result: seq<DiffEntry>)
    requires was.Directory? && now.Directory?
    ensures result == acc + RemovedChildren(was, now, SortedKeys(was.children.Keys), prefix)
  {
    var keys := SortedKeys(was.children.Keys);
    result := acc;
    for i := 0 to |keys|
      invariant result + RemovedChildren(was, now, keys[i..], prefix) == acc + RemovedChildren(was, now, keys, prefix)
    {
      RemovedStep(was, now, keys, prefix, i, result);
      if keys[i] !in now.children {
        result := result + [Removed(prefix + [keys[i]], was.children[keys[i]])];
      }
    }
    assert keys[|keys|..] == [];
  }

  // ---- Pruning is complete, without any assumption on the hash function ----

  lemma {:induction false} NoChildEntries(was: Node, now: Node, keys: seq<Name>, prefix: Path, k: Name)
    requires was.Directory? && now.Directory? && forall x :: x in keys ==> x in now.children
    requires DiffChildren(was, now, keys, prefix) == [] && k in keys
    ensures DiffChild(was, now, k, prefix) == []
  {
    if k != keys[0] {
      NoChildEntries(was, now, keys[1..], prefix, k);
    }
  }

  lemma {:induction false} NoRemovedEntries(was: Node, now: Node, keys: seq<Name>, prefix: Path, k: Name)
    requires was.Directory? && now.Directory? && forall x :: x in keys ==> x in was.children
    requires RemovedChildren(was, now, keys, prefix) == [] && k in keys
    ensures k in now.children
  {
    if k != keys[0] {
      NoRemovedEntries(was, now, keys[1..], prefix, k);
    }
  }

  /** The diff of two hash-consistent trees is empty exactly when the root hashes are equal. */
  lemma {:induction false} DiffEmptyIff(hash: Hasher, was: Node, now: Node, prefix: Path)
    requires Consistent(hash, was) && Consistent(hash, now)
    ensures Diff(was, now, prefix) == [] <==> was.hash == now.hash
    decreases now
  {
    if Diff(was, now, prefix) == [] && was.hash != now.hash {
      var newKeys, oldKeys := SortedKeys(now.children.Keys), SortedKeys(was.children.Keys);
      forall k | k in now.children
        ensures k in was.children && was.children[k].hash == now.children[k].hash
      {
        NoChildEntries(was, now, newKeys, prefix, k);
        DiffEmptyIff(hash, was.children[k], now.children[k], prefix + [k]);
      }
      forall k | k in was.children
        ensures k in now.children
      {
        NoRemovedEntries(was, now, oldKeys, prefix, k);
      }
      assert was.children.Keys == now.children.Keys;
      DirInputByHashes(newKeys, was.children, now.children);
    }
  }
}
