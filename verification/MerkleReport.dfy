/** What a diff reports: the pruned traversal agrees with the path-by-path comparison of the trees. */
module MerkleReport {
  import opened ByteStrings
  import opened Merkle
  import opened MerkleDiff
  import opened MerklePatch

  /** Entry `e` is what comparing the two trees at relative path `p` calls for, without any hash. */
  ghost predicate Reported(was: Node, now: Node, p: Path, e: DiffEntry) {
    match e
    case Added(_, node) =>
      p != [] && Find(was, p) == None && Find(now, p) == Some(node)
      && IsDir(Find(was, p[..|p| - 1])) && IsDir(Find(now, p[..|p| - 1]))
    case Removed(_, node) =>
      p != [] && Find(now, p) == None && Find(was, p) == Some(node)
      && IsDir(Find(was, p[..|p| - 1])) && IsDir(Find(now, p[..|p| - 1]))
    case Modified(_, before, after) =>
      Find(was, p) == Some(before) && Find(now, p) == Some(after)
      && before != after && !(before.Directory? && after.Directory?)
  }

  lemma FindStep(node: Node, k: Name, q: Path)
    ensures Find(node, [k] + q) == if node.Directory? && k in node.children then Find(node.children[k], q) else None
    ensures q != [] ==> ([k] + q)[..|[k] + q| - 1] == [k] + q[..|q| - 1]
  {
    assert ([k] + q)[1..] == q;
  }

  lemma ReportedChild(was: Node, now: Node, k: Name, q: Path, e: DiffEntry)
    requires was.Directory? && now.Directory? && k in was.children && k in now.children
    ensures Reported(was, now, [k] + q, e) <==> Reported(was.children[k], now.children[k], q, e)
  {
    FindStep(was, k, q);
    FindStep(now, k, q);
    if q != [] {
      FindStep(was, k, q[..|q| - 1]);
      FindStep(now, k, q[..|q| - 1]);
    }
  }

  // ---- Every entry is called for ----

  lemma {:induction false} ChildrenSource(was: Node, now: Node, keys: seq<Name>, prefix: Path, e: DiffEntry)
    returns (k: Name)
    requires was.Directory? && now.Directory? && forall x :: x in keys ==> x in now.children
    requires e in DiffChildren(was, now, keys, prefix)
    ensures k in keys && e in DiffChild(was, now, k, prefix)
  {
    if e in DiffChild(was, now, keys[0], prefix) {
      k := keys[0];
    } else {
      k := ChildrenSource(was, now, keys[1..], prefix, e);
    }
  }

  lemma {:induction false} RemovedSource(was: Node, now: Node, keys: seq<Name>, prefix: Path, e: DiffEntry)
    returns (k: Name)
    requires was.Directory? && now.Directory? && forall x :: x in keys ==> x in was.children
    requires e in RemovedChildren(was, now, keys, prefix)
    ensures k in keys && e in RemovedChild(was, now, k, prefix)
  {
    if e in RemovedChild(was, now, keys[0], prefix) {
      k := keys[0];
    } else {
      k := RemovedSource(was, now, keys[1..], prefix, e);
    }
  }

  lemma SingleStep(was: Node, now: Node, k: Name, e: DiffEntry)
    requires was.Directory? && now.Directory?
    ensures e.Added? && k !in was.children && k in now.children && e.node == now.children[k] ==>
      Reported(was, now, [k], e)
    ensures e.Removed? && k in was.children && k !in now.children && e.node == was.children[k] ==>
      Reported(was, now, [k], e)
  {
    assert [k][..0] == [];
    assert [k] + [] == [k];
    FindStep(was, k, []);
    FindStep(now, k, []);
  }

  lemma {:induction false} DiffSound(was: Node, now: Node, prefix: Path, e: DiffEntry) returns (p: Path)
    requires e in Diff(was, now, prefix)
    ensures e.path == prefix + p && Reported(was, now, p, e)
    decreases now, 1
  {
    if was.Directory? && now.Directory? {
      if e in DiffChildren(was, now, SortedKeys(now.children.Keys), prefix) {
        var k := ChildrenSource(was, now, SortedKeys(now.children.Keys), prefix, e);
        var q := ChildSound(was, now, k, prefix, e);
        p := [k] + q;
      } else {
        var k := RemovedSource(was, now, SortedKeys(was.children.Keys), prefix, e);
        p := [k];
        SingleStep(was, now, k, e);
      }
    } else {
      p := [];
      assert prefix + p == prefix;
    }
  }

  lemma {:induction false} ChildSound(was: Node, now: Node, k: Name, prefix: Path, e: DiffEntry) returns (q: Path)
    requires was.Directory? && now.Directory? && k in now.children && e in DiffChild(was, now, k, prefix)
    ensures e.path == prefix + ([k] + q) && Reported(was, now, [k] + q, e)
    decreases now, 0
  {
    if k in was.children {
      q := DiffSound(was.children[k], now.children[k], prefix + [k], e);
      assert prefix + ([k] + q) == prefix + [k] + q;
      ReportedChild(was, now, k, q, e);
    } else {
      q := [];
      assert [k] + q == [k];
      SingleStep(was, now, k, e);
    }
  }

  // ---- Everything called for is an entry ----

  lemma {:induction false} ChildrenInclude(was: Node, now: Node, keys: seq<Name>, prefix: Path, k: Name, e: DiffEntry)
    requires was.Directory? && now.Directory? && forall x :: x in keys ==> x in now.children
    requires k in keys && e in DiffChild(was, now, k, prefix)
    ensures e in DiffChildren(was, now, keys, prefix)
  {
    if k != keys[0] {
      ChildrenInclude(was, now, keys[1..], prefix, k, e);
    }
  }

  lemma {:induction false} RemovedInclude(was: Node, now: Node, keys: seq<Name>, prefix: Path, k: Name, e: DiffEntry)
    requires was.Directory? && now.Directory? && forall x :: x in keys ==> x in was.children
    requires k in keys && e in RemovedChild(was, now, k, prefix)
    ensures e in RemovedChildren(was, now, keys, prefix)
  {
    if k != keys[0] {
      RemovedInclude(was, now, keys[1..], prefix, k, e);
    }
  }

  /** A report below the root needs a directory at the root of both trees. */
  lemma ParentDirectories(was: Node, now: Node, k: Name, q: Path, e: DiffEntry)
    requires Reported(was, now, [k] + q, e)
    ensures was.Directory? && now.Directory?
  {
    FindStep(was, k, q);
    FindStep(now, k, q);
    if q == [] {
      assert ([k] + q)[..0] == [];
    } else {
      FindStep(was, k, q[..|q| - 1]);
      FindStep(now, k, q[..|q| - 1]);
    }
  }

  lemma {:induction false} DiffComplete(was: Node, now: Node, prefix: Path, p: Path, e: DiffEntry)
    requires NoCollision(was, now) && Reported(was, now, p, e) && e.path == prefix + p
    ensures e in Diff(was, now, prefix)
    decreases now
  {
    if was.hash == now.hash {
      NoCollisionRoot(was, now);
      assert false;
    } else if p == [] {
      assert prefix + p == prefix;
    } else {
      var k, q := p[0], p[1..];
      assert p == [k] + q;
      ParentDirectories(was, now, k, q, e);
      DiffCompleteBelow(was, now, prefix, k, q, e);
    }
  }

  lemma {:induction false} DiffCompleteBelow(was: Node, now: Node, prefix: Path, k: Name, q: Path, e: DiffEntry)
    requires was.Directory? && now.Directory? && was.hash != now.hash
    requires NoCollision(was, now) && Reported(was, now, [k] + q, e) && e.path == prefix + ([k] + q)
    ensures e in Diff(was, now, prefix)
    decreases now, 0
  {
    var newKeys, oldKeys := SortedKeys(now.children.Keys), SortedKeys(was.children.Keys);
    FindStep(was, k, q);
    FindStep(now, k, q);
    if k in was.children && k in now.children {
      ReportedChild(was, now, k, q, e);
      NoCollisionChild(was, now, k);
      assert e.path == prefix + [k] + q;
      DiffComplete(was.children[k], now.children[k], prefix + [k], q, e);
      ChildrenInclude(was, now, newKeys, prefix, k, e);
    } else {
      if q != [] {
        FindStep(was, k, q[..|q| - 1]);
        FindStep(now, k, q[..|q| - 1]);
      }
      assert q == [];
      assert [k] + q == [k];
      if k in now.children {
        ChildrenInclude(was, now, newKeys, prefix, k, e);
      } else {
        RemovedInclude(was, now, oldKeys, prefix, k, e);
      }
    }
  }

  /** The hash-pruned traversal reports exactly what comparing the trees path by path calls for. */
  lemma DiffIsPathwise(was: Node, now: Node, e: DiffEntry)
    requires NoCollision(was, now)
    ensures e in Diff(was, now, []) <==> Reported(was, now, e.path, e)
  {
    if e in Diff(was, now, []) {
      var p := DiffSound(was, now, [], e);
      assert [] + p == p;
    }
    if Reported(was, now, e.path, e) {
      assert [] + e.path == e.path;
      DiffComplete(was, now, [], e.path, e);
    }
  }

  // ---- Entry paths are distinct and prefix-free ----

  ghost predicate UniquePaths(es: seq<DiffEntry>) {
    forall i, j :: 0 <= i < j < |es| ==> es[i].path != es[j].path
  }

  lemma UniqueAppend(a: seq<DiffEntry>, b: seq<DiffEntry>)
    requires UniquePaths(a) && UniquePaths(b)
    requires forall x, y :: x in a && y in b ==> x.path != y.path
    ensures UniquePaths(a + b)
  {
  }

  /** The path of `e` continues `prefix` with one of `keys`. */
  ghost predicate Under(prefix: Path, keys: seq<Name>, e: DiffEntry) {
    |e.path| > |prefix| && e.path[|prefix|] in keys
  }

  lemma ChildrenUnder(was: Node, now: Node, keys: seq<Name>, prefix: Path)
    requires was.Directory? && now.Directory? && forall x :: x in keys ==> x in now.children
    ensures forall e :: e in DiffChildren(was, now, keys, prefix) ==> Under(prefix, keys, e)
  {
    forall e | e in DiffChildren(was, now, keys, prefix)
      ensures Under(prefix, keys, e)
    {
      var k := ChildrenSource(was, now, keys, prefix, e);
      var q := ChildSound(was, now, k, prefix, e);
    }
  }

  lemma {:induction false} ChildrenUnique(was: Node, now: Node, keys: seq<Name>, prefix: Path)
    requires was.Directory? && now.Directory? && (forall x :: x in keys ==> x in now.children) && Distinct(keys)
    ensures UniquePaths(DiffChildren(was, now, keys, prefix))
    decreases now, 0, |keys|
  {
    if keys != [] {
      var k := keys[0];
      if k in was.children {
        DiffUnique(was.children[k], now.children[k], prefix + [k]);
      }
      ChildrenUnique(was, now, keys[1..], prefix);
      ChildrenUnder(was, now, keys[1..], prefix);
      forall e | e in DiffChild(was, now, k, prefix)
        ensures Under(prefix, [k], e)
      {
        var q := ChildSound(was, now, k, prefix, e);
      }
      UniqueAppend(DiffChild(was, now, k, prefix), DiffChildren(was, now, keys[1..], prefix));
    }
  }

  lemma {:induction false} RemovedUnique(was: Node, now: Node, keys: seq<Name>, prefix: Path)
    requires was.Directory? && now.Directory? && (forall x :: x in keys ==> x in was.children) && Distinct(keys)
    ensures UniquePaths(RemovedChildren(was, now, keys, prefix))
    ensures forall e :: e in RemovedChildren(was, now, keys, prefix) ==>
      Under(prefix, keys, e) && e.path[|prefix|] !in now.children
    decreases keys
  {
    if keys != [] {
      RemovedUnique(was, now, keys[1..], prefix);
      UniqueAppend(RemovedChild(was, now, keys[0], prefix), RemovedChildren(was, now, keys[1..], prefix));
    }
  }

  lemma {:induction false} DiffUnique(was: Node, now: Node, prefix: Path)
    ensures UniquePaths(Diff(was, now, prefix))
    decreases now, 1, 0
  {
    if was.hash != now.hash && was.Directory? && now.Directory? {
      var newKeys, oldKeys := SortedKeys(now.children.Keys), SortedKeys(was.children.Keys);
      SortedKeysDistinct(now.children.Keys);
      SortedKeysDistinct(was.children.Keys);
      ChildrenUnique(was, now, newKeys, prefix);
      ChildrenUnder(was, now, newKeys, prefix);
      RemovedUnique(was, now, oldKeys, prefix);
      UniqueAppend(DiffChildren(was, now, newKeys, prefix), RemovedChildren(was, now, oldKeys, prefix));
    }
  }

  /** A report rules out any report strictly below it. */
  lemma ReportedIsMaximal(was: Node, now: Node, p: Path, e: DiffEntry, q: Path, f: DiffEntry)
    requires Reported(was, now, p, e) && Reported(was, now, q, f) && p <= q
    ensures p == q
  {
    var r := q[|p|..];
    assert q == p + r;
    if r != [] {
      FindAppend(was, p, r);
      FindAppend(now, p, r);
      assert q[..|q| - 1] == p + r[..|r| - 1];
      FindAppend(was, p, r[..|r| - 1]);
      FindAppend(now, p, r[..|r| - 1]);
    }
  }

  /** No two entries of a diff share a path and no entry's path extends another's. */
  lemma DiffPathsPrefixFree(was: Node, now: Node, i: nat, j: nat)
    requires i < |Diff(was, now, [])| && j < |Diff(was, now, [])|
    requires Diff(was, now, [])[i].path <= Diff(was, now, [])[j].path
    ensures i == j
  {
    var es := Diff(was, now, []);
    DiffUnique(was, now, []);
    var p := DiffSound(was, now, [], es[i]);
    var q := DiffSound(was, now, [], es[j]);
    assert [] + p == p && [] + q == q;
    ReportedIsMaximal(was, now, p, es[i], q, es[j]);
  }

  // ---- Coverage ----

  /** A file path of either tree whose node differs lies under some entry. */
  lemma {:induction false} DifferenceCovered(was: Node, now: Node, p: Path) returns (q: Path, e: DiffEntry)
    requires IsFile(Find(was, p)) || IsFile(Find(now, p))
    requires Find(was, p) != Find(now, p)
    ensures q <= p && e.path == q && Reported(was, now, q, e)
    decreases p
  {
    if was.Directory? && now.Directory? && p != [] {
      var k, rest := p[0], p[1..];
      assert p == [k] + rest;
      if k in was.children && k in now.children {
        var q', e' := DifferenceCovered(was.children[k], now.children[k], rest);
        q := [k] + q';
        e := Relocate(e', q);
        ReportedChild(was, now, k, q', e);
      } else {
        q := [k];
        e := if k in now.children then Added(q, now.children[k]) else Removed(q, was.children[k]);
        SingleStep(was, now, k, e);
      }
    } else {
      q := [];
      e := Modified([], was, now);
    }
  }

  function Relocate(e: DiffEntry, path: Path): DiffEntry {
    match e
    case Added(_, node) => Added(path, node)
    case Removed(_, node) => Removed(path, node)
    case Modified(_, before, after) => Modified(path, before, after)
  }

  /** Below a report the trees show different things at every file path of either tree. */
  lemma ReportedDiffers(was: Node, now: Node, q: Path, e: DiffEntry, p: Path)
    requires Reported(was, now, q, e) && q <= p
    requires IsFile(Find(was, p)) || IsFile(Find(now, p))
    ensures Find(was, p) != Find(now, p)
  {
    assert p == q + p[|q|..];
    FindAppend(was, q, p[|q|..]);
    FindAppend(now, q, p[|q|..]);
  }

  ghost predicate CoveredBy(es: seq<DiffEntry>, i: int, p: Path) {
    0 <= i < |es| && es[i].path <= p
  }

  /** A file path of either tree shows different nodes exactly when it lies under an entry, and
      then under exactly one. */
  lemma DiffCoverage(was: Node, now: Node, p: Path)
    requires NoCollision(was, now)
    requires IsFile(Find(was, p)) || IsFile(Find(now, p))
    ensures Find(was, p) != Find(now, p) <==> exists i :: CoveredBy(Diff(was, now, []), i, p)
    ensures forall i, j :: CoveredBy(Diff(was, now, []), i, p) && CoveredBy(Diff(was, now, []), j, p) ==> i == j
  {
    var es := Diff(was, now, []);
    if Find(was, p) != Find(now, p) {
      var q, e := DifferenceCovered(was, now, p);
      DiffIsPathwise(was, now, e);
      var i :| 0 <= i < |es| && es[i] == e;
      assert CoveredBy(es, i, p);
    }
    forall i | CoveredBy(es, i, p)
      ensures Find(was, p) != Find(now, p)
    {
      DiffIsPathwise(was, now, es[i]);
      ReportedDiffers(was, now, es[i].path, es[i], p);
    }
    forall i, j | CoveredBy(es, i, p) && CoveredBy(es, j, p)
      ensures i == j
    {
      if |es[i].path| <= |es[j].path| {
        DiffPathsPrefixFree(was, now, i, j);
      } else {
        DiffPathsPrefixFree(was, now, j, i);
      }
    }
  }

  // ---- Mirror image ----

  function Mirror(e: DiffEntry): DiffEntry {
    match e
    case Added(path, node) => Removed(path, node)
    case Removed(path, node) => Added(path, node)
    case Modified(path, before, after) => Modified(path, after, before)
  }

  function MirrorAll(es: seq<DiffEntry>): (r: seq<DiffEntry>)
    ensures |r| == |es| && forall i :: 0 <= i < |es| ==> r[i] == Mirror(es[i])
  {
    if es == [] then [] else [Mirror(es[0])] + MirrorAll(es[1..])
  }

  lemma {:induction false} UniqueMultiplicity(es: seq<DiffEntry>, e: DiffEntry)
    requires UniquePaths(es)
    ensures multiset(es)[e] == if e in es then 1 else 0
  {
    if es != [] {
      assert es == [es[0]] + es[1..];
      UniqueMultiplicity(es[1..], e);
      assert es[0] !in es[1..];
    }
  }

  lemma MirrorReported(was: Node, now: Node, e: DiffEntry)
    requires NoCollision(was, now)
    ensures e in Diff(now, was, []) <==> Mirror(e) in Diff(was, now, [])
  {
    assert NoCollision(now, was) by {
      forall p
        ensures SamePathAgrees(now, was, p)
      {
        assert SamePathAgrees(was, now, p);
      }
    }
    DiffIsPathwise(now, was, e);
    DiffIsPathwise(was, now, Mirror(e));
  }

  lemma MirrorUnique(es: seq<DiffEntry>)
    requires UniquePaths(es)
    ensures UniquePaths(MirrorAll(es))
  {
    assert forall e: DiffEntry :: Mirror(e).path == e.path;
  }

  lemma MirrorMultiplicity(was: Node, now: Node, e: DiffEntry)
    requires NoCollision(was, now)
    ensures multiset(Diff(now, was, []))[e] == multiset(MirrorAll(Diff(was, now, [])))[e]
  {
    DiffUnique(now, was, []);
    DiffUnique(was, now, []);
    MirrorUnique(Diff(was, now, []));
    UniqueMultiplicity(Diff(now, was, []), e);
    UniqueMultiplicity(MirrorAll(Diff(was, now, [])), e);
    MirrorIn(Diff(was, now, []), e);
    MirrorReported(was, now, e);
  }

  /** Swapping the trees mirrors the diff: additions become removals and the two sides of a
      modification change places, each exactly as often. */
  lemma DiffMirror(was: Node, now: Node)
    requires NoCollision(was, now)
    ensures multiset(Diff(now, was, [])) == multiset(MirrorAll(Diff(was, now, [])))
  {
    forall e: DiffEntry
      ensures multiset(Diff(now, was, []))[e] == multiset(MirrorAll(Diff(was, now, [])))[e]
    {
      MirrorMultiplicity(was, now, e);
    }
  }

  lemma MirrorIn(es: seq<DiffEntry>, e: DiffEntry)
    ensures e in MirrorAll(es) <==> Mirror(e) in es
  {
    if e in MirrorAll(es) {
      var i :| 0 <= i < |es| && MirrorAll(es)[i] == e;
      assert Mirror(Mirror(es[i])) == es[i];
    }
    if Mirror(e) in es {
      var i :| 0 <= i < |es| && es[i] == Mirror(e);
      assert MirrorAll(es)[i] == e;
    }
  }

  // ---- The order of the report ----

  /** Where the two paths part, what the new tree has comes before what it has not, each in name order. */
  ghost predicate Precedes(now: Node, p: Path, q: Path)
    decreases p
  {
    && p != [] && q != [] && now.Directory?
    && if p[0] == q[0] then p[0] in now.children && Precedes(now.children[p[0]], p[1..], q[1..])
       else if p[0] in now.children then q[0] in now.children ==> Less(p[0], q[0])
       else q[0] !in now.children && Less(p[0], q[0])
  }

  ghost predicate EntryPrecedes(now: Node, n: nat, e: DiffEntry, f: DiffEntry) {
    n <= |e.path| && n <= |f.path| && Precedes(now, e.path[n..], f.path[n..])
  }

  ghost predicate InOrder(now: Node, n: nat, es: seq<DiffEntry>) {
    forall i, j :: 0 <= i < j < |es| ==> EntryPrecedes(now, n, es[i], es[j])
  }

  lemma InOrderAppend(now: Node, n: nat, a: seq<DiffEntry>, b: seq<DiffEntry>)
    requires InOrder(now, n, a) && InOrder(now, n, b)
    requires forall e, f :: e in a && f in b ==> EntryPrecedes(now, n, e, f)
    ensures InOrder(now, n, a + b)
  {
    forall i, j | 0 <= i < j < |a + b|
      ensures EntryPrecedes(now, n, (a + b)[i], (a + b)[j])
    {
      if i < |a| <= j {
        assert a[i] in a && b[j - |a|] in b;
      }
    }
  }

  lemma BelowChild(prefix: Path, k: Name, path: Path)
    requires prefix + [k] <= path
    ensures |prefix| < |path| && path[|prefix|..][0] == k && path[|prefix|..][1..] == path[|prefix| + 1..]
  {
    assert path[|prefix|] == (prefix + [k])[|prefix|];
  }

  lemma LiftInOrder(now: Node, k: Name, prefix: Path, es: seq<DiffEntry>)
    requires now.Directory? && k in now.children && InOrder(now.children[k], |prefix| + 1, es)
    requires forall e :: e in es ==> prefix + [k] <= e.path
    ensures InOrder(now, |prefix|, es)
  {
    forall i, j | 0 <= i < j < |es|
      ensures EntryPrecedes(now, |prefix|, es[i], es[j])
    {
      assert es[i] in es && es[j] in es;
      BelowChild(prefix, k, es[i].path);
      BelowChild(prefix, k, es[j].path);
      assert EntryPrecedes(now.children[k], |prefix| + 1, es[i], es[j]);
    }
  }

  lemma OtherChildPrecedes(now: Node, prefix: Path, k: Name, l: Name, e: DiffEntry, f: DiffEntry)
    requires now.Directory? && prefix + [k] <= e.path && prefix + [l] <= f.path && k != l
    requires if k in now.children then l in now.children ==> Less(k, l) else l !in now.children && Less(k, l)
    ensures EntryPrecedes(now, |prefix|, e, f)
  {
    BelowChild(prefix, k, e.path);
    BelowChild(prefix, l, f.path);
  }

  lemma ChildBelow(was: Node, now: Node, k: Name, prefix: Path, e: DiffEntry)
    requires was.Directory? && now.Directory? && k in now.children && e in DiffChild(was, now, k, prefix)
    ensures prefix + [k] <= e.path
  {
    var q := ChildSound(was, now, k, prefix, e);
  }

  lemma {:induction false} ChildInOrder(was: Node, now: Node, k: Name, prefix: Path)
    requires was.Directory? && now.Directory? && k in now.children
    ensures InOrder(now, |prefix|, DiffChild(was, now, k, prefix))
    decreases now, 0, 0
  {
    if k in was.children {
      DiffInOrder(was.children[k], now.children[k], prefix + [k]);
      forall e | e in DiffChild(was, now, k, prefix)
        ensures prefix + [k] <= e.path
      {
        ChildBelow(was, now, k, prefix, e);
      }
      LiftInOrder(now, k, prefix, DiffChild(was, now, k, prefix));
    }
  }

  lemma {:induction false} ChildrenInOrder(was: Node, now: Node, keys: seq<Name>, prefix: Path)
    requires was.Directory? && now.Directory? && (forall x :: x in keys ==> x in now.children) && StrictlySorted(keys)
    ensures InOrder(now, |prefix|, DiffChildren(was, now, keys, prefix))
    decreases now, 0, |keys|
  {
    if keys != [] {
      var k, rest := keys[0], keys[1..];
      ChildInOrder(was, now, k, prefix);
      ChildrenInOrder(was, now, rest, prefix);
      forall e, f | e in DiffChild(was, now, k, prefix) && f in DiffChildren(was, now, rest, prefix)
        ensures EntryPrecedes(now, |prefix|, e, f)
      {
        var l := ChildrenSource(was, now, rest, prefix, f);
        ChildBelow(was, now, k, prefix, e);
        ChildBelow(was, now, l, prefix, f);
        LessIrreflexive(k);
        OtherChildPrecedes(now, prefix, k, l, e, f);
      }
      InOrderAppend(now, |prefix|, DiffChild(was, now, k, prefix), DiffChildren(was, now, rest, prefix));
    }
  }

  lemma {:induction false} RemovedInOrder(was: Node, now: Node, keys: seq<Name>, prefix: Path)
    requires was.Directory? && now.Directory? && (forall x :: x in keys ==> x in was.children) && StrictlySorted(keys)
    ensures InOrder(now, |prefix|, RemovedChildren(was, now, keys, prefix))
  {
    if keys != [] {
      var k, rest := keys[0], keys[1..];
      RemovedInOrder(was, now, rest, prefix);
      forall e, f | e in RemovedChild(was, now, k, prefix) && f in RemovedChildren(was, now, rest, prefix)
        ensures EntryPrecedes(now, |prefix|, e, f)
      {
        var l := RemovedSource(was, now, rest, prefix, f);
        LessIrreflexive(k);
        OtherChildPrecedes(now, prefix, k, l, e, f);
      }
      InOrderAppend(now, |prefix|, RemovedChild(was, now, k, prefix), RemovedChildren(was, now, rest, prefix));
    }
  }

  /** The entries of a diff come in one order: where two paths part, what the new tree has comes first, by
      name, and then what it has not, by name. */
  lemma {:induction false} DiffInOrder(was: Node, now: Node, prefix: Path)
    ensures InOrder(now, |prefix|, Diff(was, now, prefix))
    decreases now, 1, 0
  {
    if was.hash != now.hash && was.Directory? && now.Directory? {
      var newKeys, oldKeys := SortedKeys(now.children.Keys), SortedKeys(was.children.Keys);
      SortedKeysSorted(now.children.Keys);
      SortedKeysSorted(was.children.Keys);
      ChildrenInOrder(was, now, newKeys, prefix);
      RemovedInOrder(was, now, oldKeys, prefix);
      forall e, f | e in DiffChildren(was, now, newKeys, prefix) && f in RemovedChildren(was, now, oldKeys, prefix)
        ensures EntryPrecedes(now, |prefix|, e, f)
      {
        var k := ChildrenSource(was, now, newKeys, prefix, e);
        ChildBelow(was, now, k, prefix, e);
        var l := RemovedSource(was, now, oldKeys, prefix, f);
        OtherChildPrecedes(now, prefix, k, l, e, f);
      }
      InOrderAppend(now, |prefix|, DiffChildren(was, now, newKeys, prefix), RemovedChildren(was, now, oldKeys, prefix));
    }
  }
}
