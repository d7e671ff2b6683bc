/** Byte strings, the total order a `BTreeMap` keeps them in, and sums over finite maps. */
module ByteStrings {

  type Byte = b: int | 0 <= b < 256

  type Bytes = seq<Byte>

  datatype Option<+T> = None | Some(value: T)

  /** A 32-byte hash value. */
  type Digest = d: Bytes | |d| == 32 witness seq(32, _ => 0)

  /** The hash function, left open: every theorem holds for whatever function is plugged in. */
  type Hasher = Bytes -> Digest

  /** `hash` does not collide on the inputs `xs`. */
  ghost predicate CollisionFree(hash: Hasher, xs: set<Bytes>) {
    forall x, y :: x in xs && y in xs && hash(x) == hash(y) ==> x == y
  }

  /** Lexicographic order: the order of Rust's `String`, `[u8; 8]` and hence of `BTreeMap` keys. */
  predicate Less(a: Bytes, b: Bytes) {
    b != [] && (a == [] || a[0] < b[0] || (a[0] == b[0] && Less(a[1..], b[1..])))
  }

  lemma {:induction false} LessIrreflexive(a: Bytes)
    ensures !Less(a, a)
  {
    if a != [] {
      LessIrreflexive(a[1..]);
    }
  }

  lemma {:induction false} LessTransitive(a: Bytes, b: Bytes, c: Bytes)
    requires Less(a, b) && Less(b, c)
    ensures Less(a, c)
  {
    if a != [] && a[0] == b[0] && b[0] == c[0] {
      LessTransitive(a[1..], b[1..], c[1..]);
    }
  }

  lemma {:induction false} LessTotal(a: Bytes, b: Bytes)
    ensures a == b || Less(a, b) || Less(b, a)
  {
    if a != [] && b != [] && a[0] == b[0] {
      LessTotal(a[1..], b[1..]);
      assert a == [a[0]] + a[1..] && b == [b[0]] + b[1..];
    }
  }

  lemma LessAsymmetric(a: Bytes, b: Bytes)
    requires Less(a, b)
    ensures !Less(b, a)
  {
    if Less(b, a) {
      LessTransitive(a, b, a);
      LessIrreflexive(a);
    }
  }

  /** `a` and `b` agree up to `i`, where `a` ends or has the smaller byte. */
  predicate LessAt(a: Bytes, b: Bytes, i: nat) {
    i <= |a| && i < |b| && a[..i] == b[..i] && (i == |a| || a[i] < b[i])
  }

  lemma {:induction false} LessByFirstDifference(a: Bytes, b: Bytes) returns (i: nat)
    requires Less(a, b)
    ensures LessAt(a, b, i)
  {
    if a == [] || a[0] < b[0] {
      i := 0;
    } else {
      var j := LessByFirstDifference(a[1..], b[1..]);
      i := j + 1;
      assert a[..i] == [a[0]] + a[1..][..j] && b[..i] == [b[0]] + b[1..][..j];
    }
  }

  lemma {:induction false} FirstDifferenceIsLess(a: Bytes, b: Bytes, i: nat)
    requires LessAt(a, b, i)
    ensures Less(a, b)
  {
    if i > 0 {
      assert a[0] == a[..i][0] && b[0] == b[..i][0];
      assert a[1..][..i - 1] == a[..i][1..] && b[1..][..i - 1] == b[..i][1..];
      FirstDifferenceIsLess(a[1..], b[1..], i - 1);
    }
  }

  /** One string is less than another exactly when it is a proper beginning of it, or has the smaller
      byte at the first place where they differ. */
  lemma LessIff(a: Bytes, b: Bytes)
    ensures Less(a, b) <==> exists i :: LessAt(a, b, i)
  {
    if Less(a, b) {
      var i := LessByFirstDifference(a, b);
    }
    if i :| LessAt(a, b, i) {
      FirstDifferenceIsLess(a, b, i);
    }
  }

  /** The strings one after the other. */
  function Concat(parts: seq<Bytes>): Bytes {
    if parts == [] then [] else parts[0] + Concat(parts[1..])
  }

  lemma ConcatTwo(x: Bytes, y: Bytes, rest: seq<Bytes>)
    ensures Concat([x, y] + rest) == x + y + Concat(rest)
  {
    var parts := [x, y] + rest;
    assert parts[1..] == [y] + rest && parts[1..][1..] == rest;
    assert x + (y + Concat(rest)) == x + y + Concat(rest);
  }

  predicate IsLeast(m: Bytes, s: set<Bytes>) {
    m in s && forall x :: x in s ==> x == m || Less(m, x)
  }

  lemma {:induction false} LeastExists(s: set<Bytes>) returns (m: Bytes)
    requires s != {}
    ensures IsLeast(m, s)
  {
    m :| m in s;
    var rest := s - {m};
    assert s == rest + {m};
    if rest != {} {
      var n := LeastExists(rest);
      LessTotal(n, m);
      var first := m;
      if Less(n, m) {
        m := n;
      }
      forall x | x in s
        ensures x == m || Less(m, x)
      {
        if x != first && x != n && m != n {
          assert x in rest;
          LessTransitive(m, n, x);
        }
      }
    }
  }

  /** The least element of a non-empty set. */
  function Least(s: set<Bytes>): (m: Bytes)
    requires s != {}
    ensures IsLeast(m, s)
  {
    assert exists m :: IsLeast(m, s) by {
      var m := LeastExists(s);
    }
    assert forall m, n | IsLeast(m, s) && IsLeast(n, s) :: m == n by {
      forall m, n | IsLeast(m, s) && IsLeast(n, s)
        ensures m == n
      {
        if m != n {
          LessAsymmetric(m, n);
        }
      }
    }
    var m :| m in s && IsLeast(m, s);
    m
  }

  ghost predicate StrictlySorted(keys: seq<Bytes>) {
    forall i, j :: 0 <= i < j < |keys| ==> Less(keys[i], keys[j])
  }

  /** The iteration order of a `BTreeMap` with these keys. */
  function SortedKeys(s: set<Bytes>): (keys: seq<Bytes>)
    ensures forall k :: k in keys <==> k in s
    decreases |s|
  {
    if s == {} then []
    else
      var m := Least(s);
      [m] + SortedKeys(s - {m})
  }

  lemma {:induction false} SortedKeysSorted(s: set<Bytes>)
    ensures StrictlySorted(SortedKeys(s))
    decreases |s|
  {
    if s != {} {
      var m := Least(s);
      var rest := SortedKeys(s - {m});
      SortedKeysSorted(s - {m});
      assert forall j :: 0 <= j < |rest| ==> rest[j] in rest;
    }
  }

  lemma {:induction false} SortedKeysDistinct(s: set<Bytes>)
    ensures Distinct(SortedKeys(s))
    decreases |s|
  {
    if s != {} {
      var m := Least(s);
      SortedKeysDistinct(s - {m});
      assert m !in SortedKeys(s - {m});
    }
  }

  lemma {:induction false} SortedKeysSize(s: set<Bytes>)
    ensures |SortedKeys(s)| == |s|
    decreases |s|
  {
    if s != {} {
      SortedKeysSize(s - {Least(s)});
    }
  }

  predicate Distinct(keys: seq<Bytes>) {
    keys == [] || (keys[0] !in keys[1..] && Distinct(keys[1..]))
  }

  lemma SortedDistinct(keys: seq<Bytes>)
    requires StrictlySorted(keys)
    ensures forall i, j :: 0 <= i < j < |keys| ==> keys[i] != keys[j]
  {
    forall i, j | 0 <= i < j < |keys|
      ensures keys[i] != keys[j]
    {
      LessIrreflexive(keys[i]);
    }
  }

  /** A strictly sorted listing is determined by its elements, whatever order they were met in. */
  lemma {:induction false} SortedUnique(a: seq<Bytes>, b: seq<Bytes>)
    requires StrictlySorted(a) && StrictlySorted(b)
    requires forall k :: k in a <==> k in b
    ensures a == b
  {
    SameEmptiness(a, b);
    if a != [] {
      SameLeast(a, b);
      SameTails(a, b);
      SortedUnique(a[1..], b[1..]);
      assert a == [a[0]] + a[1..] && b == [b[0]] + b[1..];
    }
  }

  lemma SameEmptiness(a: seq<Bytes>, b: seq<Bytes>)
    requires forall k :: k in a <==> k in b
    ensures a == [] <==> b == []
  {
    if a != [] {
      assert a[0] in b;
    }
    if b != [] {
      assert b[0] in a;
    }
  }

  lemma SameLeast(a: seq<Bytes>, b: seq<Bytes>)
    requires StrictlySorted(a) && StrictlySorted(b) && a != [] && b != []
    requires forall k :: k in a <==> k in b
    ensures a[0] == b[0]
  {
    assert a[0] in b && b[0] in a;
    if a[0] != b[0] {
      var i :| 0 <= i < |b| && b[i] == a[0];
      var j :| 0 <= j < |a| && a[j] == b[0];
      assert Less(b[0], b[i]) && Less(a[0], a[j]);
      LessAsymmetric(a[0], b[0]);
    }
  }

  lemma SameTails(a: seq<Bytes>, b: seq<Bytes>)
    requires StrictlySorted(a) && StrictlySorted(b) && a != [] && b != [] && a[0] == b[0]
    requires forall k :: k in a <==> k in b
    ensures StrictlySorted(a[1..]) && StrictlySorted(b[1..]) && forall k :: k in a[1..] <==> k in b[1..]
  {
    SortedDistinct(a);
    SortedDistinct(b);
    forall k
      ensures k in a[1..] <==> k in b[1..]
    {
      assert k in a <==> k == a[0] || k in a[1..];
      assert k in b <==> k == b[0] || k in b[1..];
    }
  }

  /** Sum of the values of a finite map. */
  function Sum(m: map<Bytes, nat>): nat
    decreases |m|
  {
    if m == map[] then 0
    else
      var k := Least(m.Keys);
      assert |m - {k}| < |m| by { DropSize(m, k); }
      m[k] + Sum(m - {k})
  }

  lemma DropSize(m: map<Bytes, nat>, k: Bytes)
    requires k in m
    ensures |m - {k}| == |m| - 1
  {
    assert (m - {k}).Keys == m.Keys - {k};
    assert |m.Keys - {k}| == |m.Keys| - 1;
    assert |m| == |m.Keys| && |m - {k}| == |(m - {k}).Keys|;
  }

  lemma {:induction false} SumDrop(m: map<Bytes, nat>, k: Bytes)
    requires k in m
    ensures Sum(m) == m[k] + Sum(m - {k})
    decreases |m|
  {
    var l := Least(m.Keys);
    if k != l {
      DropSize(m, l);
      SumDrop(m - {l}, k);
      var r := m - {k};
      assert l in r;
      var l' := Least(r.Keys);
      if l' != l {
        LessAsymmetric(l, l');
      }
      assert m - {l} - {k} == r - {l};
    }
  }

  /** Overwriting one entry changes the sum by the difference of the two values. */
  lemma SumUpdate(m: map<Bytes, nat>, k: Bytes, v: nat)
    ensures Sum(m[k := v]) + (if k in m then m[k] else 0) == Sum(m) + v
  {
    SumDrop(m[k := v], k);
    assert m[k := v] - {k} == m - {k};
    if k in m {
      SumDrop(m, k);
    } else {
      assert m - {k} == m;
    }
  }
}
