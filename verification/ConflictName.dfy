/** Hexadecimal peer identifiers, conflict file names, and clocks on the wire. */
module ConflictName {
  import opened ByteStrings
  import opened Clock

  const DOT: Byte := 46
  const SLASH: Byte := 47
  const PLUS: Byte := 43

  /** ".conflict." */
  const CONFLICT_MARK: Bytes := [46, 99, 111, 110, 102, 108, 105, 99, 116, 46]

  lemma ConflictMarkSpelling()
    ensures |CONFLICT_MARK| == |".conflict."|
    ensures forall i :: 0 <= i < |CONFLICT_MARK| ==> CONFLICT_MARK[i] == ".conflict."[i] as int
  {
  }

  function HexDigit(n: nat): Byte
    requires n < 16
  {
    if n < 10 then 48 + n else 87 + n
  }

  /** Two lower-case hexadecimal digits per byte. */
  function Hex(bytes: Bytes): (h: Bytes)
    ensures |h| == 2 * |bytes|
  {
    if bytes == [] then [] else [HexDigit(bytes[0] / 16), HexDigit(bytes[0] % 16)] + Hex(bytes[1..])
  }

  // ---- Conflict file names ----

  /** Where the last dot is, as `rsplit_once('.')` finds it. */
  function LastDot(s: Bytes): Option<nat> {
    if s == [] then None
    else if s[|s| - 1] == DOT then Some(|s| - 1)
    else LastDot(s[..|s| - 1])
  }

  lemma {:induction false} LastDotIsLast(s: Bytes)
    ensures LastDot(s).Some? ==> var i := LastDot(s).value;
      i < |s| && s[i] == DOT && forall j :: i < j < |s| ==> s[j] != DOT
    ensures LastDot(s) == None ==> DOT !in s
  {
    if s != [] && s[|s| - 1] != DOT {
      LastDotIsLast(s[..|s| - 1]);
      assert s == s[..|s| - 1] + [s[|s| - 1]];
    }
  }

  /** The name is split at the last dot of the whole path and tagged with half the peer's identifier. */
  function ConflictFilename(original: Bytes, peer: PeerId): Bytes {
    var short := Hex(peer)[..8];
    match LastDot(original)
    case Some(i) =>
      LastDotIsLast(original);
      original[..i] + CONFLICT_MARK + short + [DOT] + original[i + 1..]
    case None => original + CONFLICT_MARK + short
  }

  predicate Contains(s: Bytes, part: Bytes) {
    exists i :: 0 <= i <= |s| - |part| && OccursAt(s, part, i)
  }

  predicate OccursAt(s: Bytes, part: Bytes, i: nat)
    requires i <= |s| - |part|
  {
    s[i..i + |part|] == part
  }

  /** The conflict file name is the original with ".conflict." and eight hexadecimal digits
      inserted before its last dot, or at its end if it has none. */
  lemma ConflictNameInsertion(original: Bytes, peer: PeerId) returns (at: nat)
    ensures at <= |original|
    ensures if at < |original| then original[at] == DOT && DOT !in original[at + 1..] else DOT !in original
    ensures ConflictFilename(original, peer) == original[..at] + (CONFLICT_MARK + Hex(peer)[..8]) + original[at..]
  {
    LastDotIsLast(original);
    var short := Hex(peer)[..8];
    if LastDot(original).Some? {
      at := LastDot(original).value;
      assert original[at..] == [DOT] + original[at + 1..];
      Regroup(original[..at], CONFLICT_MARK, short, [DOT], original[at + 1..]);
    } else {
      at := |original|;
      assert original[..at] == original && original[at..] == [];
      Regroup(original, CONFLICT_MARK, short, [], []);
    }
  }

  lemma Regroup(a: Bytes, b: Bytes, c: Bytes, d: Bytes, e: Bytes)
    ensures a + b + c + d + e == a + (b + c) + (d + e)
    ensures d == [] && e == [] ==> a + b + c == a + (b + c) + []
  {
  }

  /** Every conflict file name carries the marker and is longer than the original. */
  lemma ConflictNameMarked(original: Bytes, peer: PeerId)
    ensures Contains(ConflictFilename(original, peer), CONFLICT_MARK)
    ensures |ConflictFilename(original, peer)| == |original| + 18
  {
    var at := ConflictNameInsertion(original, peer);
    assert OccursAt(ConflictFilename(original, peer), CONFLICT_MARK, at);
  }

  // ---- Paths as strings ----

  function JoinPath(path: seq<Bytes>): Bytes {
    if path == [] then [] else if |path| == 1 then path[0] else path[0] + [SLASH] + JoinPath(path[1..])
  }

  function SplitPath(s: Bytes): (path: seq<Bytes>)
    ensures path != []
  {
    if s == [] then [[]]
    else
      var rest := SplitPath(s[1..]);
      if s[0] == SLASH then [[]] + rest else [[s[0]] + rest[0]] + rest[1..]
  }

  lemma {:induction false} JoinSplit(s: Bytes)
    ensures JoinPath(SplitPath(s)) == s
  {
    if s != [] {
      JoinSplit(s[1..]);
      var rest := SplitPath(s[1..]);
      if s[0] == SLASH {
        assert ([[]] + rest)[1..] == rest;
      } else {
        assert ([[s[0]] + rest[0]] + rest[1..])[1..] == rest[1..];
      }
    }
  }

  /** `PathBuf::from(conflict_filename(path))`. */
  function ConflictPath(path: seq<Bytes>, peer: PeerId): seq<Bytes> {
    SplitPath(ConflictFilename(JoinPath(path), peer))
  }

  /** The watcher leaves such paths alone. */
  predicate IsConflictBackup(path: seq<Bytes>) {
    Contains(JoinPath(path), CONFLICT_MARK)
  }

  /** The backup goes to another path, and one that is never announced. */
  lemma ConflictPathIsBackup(path: seq<Bytes>, peer: PeerId)
    ensures IsConflictBackup(ConflictPath(path, peer))
    ensures ConflictPath(path, peer) != path
    ensures ConflictPath(path, peer) != []
  {
    JoinSplit(ConflictFilename(JoinPath(path), peer));
    ConflictNameMarked(JoinPath(path), peer);
  }

  // ---- Where the backup lies ----

  /** Appending a string to a path string: the middle components run together. */
  function Glue(p: seq<Bytes>, q: seq<Bytes>): (r: seq<Bytes>)
    requires p != [] && q != []
    ensures |r| == |p| + |q| - 1
  {
    p[..|p| - 1] + [p[|p| - 1] + q[0]] + q[1..]
  }

  lemma {:induction false} SplitGlue(a: Bytes, b: Bytes)
    ensures SplitPath(a + b) == Glue(SplitPath(a), SplitPath(b))
  {
    if a == [] {
      assert a + b == b;
      assert [] + SplitPath(b)[0] == SplitPath(b)[0];
      assert Glue([[]], SplitPath(b)) == SplitPath(b);
    } else {
      assert (a + b)[1..] == a[1..] + b;
      SplitGlue(a[1..], b);
      GlueFirst(a[0], SplitPath(a[1..]), SplitPath(b));
    }
  }

  lemma GlueFirst(c: Byte, p: seq<Bytes>, q: seq<Bytes>)
    requires p != [] && q != []
    ensures Glue([[]] + p, q) == [[]] + Glue(p, q)
    ensures Glue([[c] + p[0]] + p[1..], q) == [[c] + Glue(p, q)[0]] + Glue(p, q)[1..]
  {
    assert [c] + p[0] + q[0] == [c] + (p[0] + q[0]);
    if |p| > 1 {
      assert Glue(p, q)[0] == p[0];
    }
  }

  lemma {:induction false} SplitNoSlash(s: Bytes)
    requires SLASH !in s
    ensures SplitPath(s) == [s]
  {
    if s != [] {
      assert s[0] in s;
      SplitNoSlash(s[1..]);
      assert s == [s[0]] + s[1..];
      assert SplitPath(s) == [s] + [s[1..]][1..];
    }
  }

  ghost predicate NoSlashes(path: seq<Bytes>) {
    forall i :: 0 <= i < |path| ==> SLASH !in path[i]
  }

  lemma {:induction false} SplitJoin(path: seq<Bytes>)
    requires path != [] && NoSlashes(path)
    ensures SplitPath(JoinPath(path)) == path
  {
    SplitNoSlash(path[0]);
    if |path| == 1 {
      assert path == [path[0]];
    } else {
      SplitJoin(path[1..]);
      var tail := [SLASH] + JoinPath(path[1..]);
      assert tail[1..] == JoinPath(path[1..]);
      assert SplitPath(tail) == [[]] + path[1..];
      SplitGlue(path[0], tail);
      assert path[0] + [SLASH] + JoinPath(path[1..]) == path[0] + tail;
      assert path[0] + [] == path[0];
      assert path == [path[0]] + path[1..];
    }
  }

  /** Bytes of a component are bytes of the string. */
  lemma {:induction false} SplitMembers(s: Bytes, c: Byte)
    requires c !in s
    ensures forall i :: 0 <= i < |SplitPath(s)| ==> c !in SplitPath(s)[i]
  {
    if s != [] {
      SplitMembers(s[1..], c);
    }
  }

  /** Inserting a slash-free string into a path string changes one component, at one place. */
  lemma InsertIntoComponent(a: Bytes, tag: Bytes, b: Bytes)
    requires SLASH !in tag
    ensures var p, q, path := SplitPath(a), SplitPath(b), SplitPath(a + b);
      var k := |p| - 1;
      && |path| == |p| + |q| - 1 && path[k] == p[k] + q[0]
      && SplitPath(a + tag + b) == path[k := p[k] + tag + q[0]]
      && forall i :: k < i < |path| ==> path[i] == q[i - k]
  {
    SplitNoSlash(tag);
    SplitGlue(a, b);
    SplitGlue(a, tag);
    SplitGlue(a + tag, b);
    GlueTwice(SplitPath(a), tag, SplitPath(b));
  }

  lemma GlueTwice(p: seq<Bytes>, tag: Bytes, q: seq<Bytes>)
    requires p != [] && q != []
    ensures Glue(Glue(p, [tag]), q) == Glue(p, q)[|p| - 1 := p[|p| - 1] + tag + q[0]]
    ensures forall i :: |p| - 1 < i < |Glue(p, q)| ==> Glue(p, q)[i] == q[i - (|p| - 1)]
  {
  }

  lemma HalvesOf(x: Bytes, y: Bytes, tag: Bytes)
    ensures (x + y)[|x|..] == y
    ensures (x + y)[..|x|] + tag + (x + y)[|x|..] == x + tag + y
  {
    assert (x + y)[..|x|] == x && (x + y)[|x|..] == y;
  }

  lemma TagLandsBetween(a: Bytes, tag: Bytes, b: Bytes) returns (k: nat, at: nat)
    requires SLASH !in tag
    ensures var path, q := SplitPath(a + b), SplitPath(b);
      && |path| == k + |q| && at <= |path[k]| && path[k][at..] == q[0]
      && SplitPath(a + tag + b) == path[k := path[k][..at] + tag + path[k][at..]]
      && forall i :: k < i < |path| ==> path[i] == q[i - k]
  {
    var p, q := SplitPath(a), SplitPath(b);
    InsertIntoComponent(a, tag, b);
    k, at := |p| - 1, |p[|p| - 1]|;
    HalvesOf(p[k], q[0], tag);
  }

  /** A string split at `n` and rejoined around a slash-free tag: the component `n` lies in gets it. */
  lemma TagLandsIn(s: Bytes, n: nat, tag: Bytes) returns (k: nat, at: nat)
    requires n <= |s| && SLASH !in tag
    ensures var path, q := SplitPath(s), SplitPath(s[n..]);
      && |path| == k + |q| && at <= |path[k]| && path[k][at..] == q[0]
      && SplitPath(s[..n] + tag + s[n..]) == path[k := path[k][..at] + tag + path[k][at..]]
      && forall i :: k < i < |path| ==> path[i] == q[i - k]
  {
    assert s == s[..n] + s[n..];
    k, at := TagLandsBetween(s[..n], tag, s[n..]);
  }

  /** The backup path has as many components as the original and changes only component `k`, which
      gets the tag at its last dot or its end; no later component contains a dot. */
  lemma BackupChangesOneComponent(path: seq<Bytes>, peer: PeerId) returns (k: nat, at: nat)
    requires path != [] && NoSlashes(path)
    ensures k < |path| && at <= |path[k]|
    ensures ConflictPath(path, peer) == path[k := path[k][..at] + (CONFLICT_MARK + Hex(peer)[..8]) + path[k][at..]]
    ensures forall i :: k < i < |path| ==> DOT !in path[i]
    ensures if at < |path[k]| then path[k][at] == DOT
            else k == |path| - 1 && forall i :: 0 <= i < |path| ==> DOT !in path[i]
  {
    var s := JoinPath(path);
    var n := ConflictNameInsertion(s, peer);
    var tag := CONFLICT_MARK + Hex(peer)[..8];
    SplitJoin(path);
    HexHasNoSlash(peer);
    k, at := TagLandsIn(s, n, tag);
    DotsAround(s, n, path, k, SplitPath(s[n..]));
    TailStart(path[k], at);
  }

  lemma TailStart(x: Bytes, at: nat)
    requires at <= |x|
    ensures if at < |x| then x[at..] != [] && x[at..][0] == x[at] else x[at..] == []
  {
  }

  lemma DotsAround(s: Bytes, n: nat, path: seq<Bytes>, k: nat, q: seq<Bytes>)
    requires n <= |s| && path == SplitPath(s) && q == SplitPath(s[n..]) && |path| == k + |q|
    requires forall i :: k < i < |path| ==> path[i] == q[i - k]
    requires if n < |s| then s[n] == DOT && DOT !in s[n + 1..] else DOT !in s
    ensures forall i :: k < i < |path| ==> DOT !in path[i]
    ensures if n < |s| then q[0] != [] && q[0][0] == DOT
            else q == [[]] && forall i :: 0 <= i < |path| ==> DOT !in path[i]
  {
    if n < |s| {
      assert s[n..][1..] == s[n + 1..];
      TailAfterDot(s[n..]);
    } else {
      assert s[n..] == [];
      SplitMembers(s, DOT);
    }
  }

  lemma TailAfterDot(b: Bytes)
    requires b != [] && b[0] == DOT && DOT !in b[1..]
    ensures var q := SplitPath(b);
      q[0] != [] && q[0][0] == DOT && forall j :: 1 <= j < |q| ==> DOT !in q[j]
  {
    SplitMembers(b[1..], DOT);
  }

  lemma {:induction false} HexDigitsAreNoSlash(bytes: Bytes)
    ensures SLASH !in Hex(bytes)
  {
    if bytes != [] {
      HexDigitsAreNoSlash(bytes[1..]);
    }
  }

  lemma HexHasNoSlash(peer: PeerId)
    ensures SLASH !in CONFLICT_MARK + Hex(peer)[..8]
  {
    HexDigitsAreNoSlash(peer);
  }

  /** The backup lies beside the original exactly when the file name has a dot, or no component of
      the path has one. */
  lemma BackupBesideIff(path: seq<Bytes>, peer: PeerId)
    requires path != [] && NoSlashes(path)
    ensures |ConflictPath(path, peer)| == |path|
    ensures ConflictPath(path, peer)[..|path| - 1] == path[..|path| - 1] <==>
      DOT in path[|path| - 1] || forall i :: 0 <= i < |path| ==> DOT !in path[i]
  {
    var k, at := BackupChangesOneComponent(path, peer);
    var backup := ConflictPath(path, peer);
    assert |backup[k]| == |path[k]| + 18;
    if k < |path| - 1 {
      assert backup[..|path| - 1][k] != path[..|path| - 1][k];
      assert DOT in path[k];
    } else {
      assert backup[..|path| - 1] == path[..|path| - 1];
    }
  }

  // ---- Clocks on the wire ----

  datatype KeyError = NotHexString | BadDigit | WrongLength

  datatype Decoded<+T> = Ok(value: T) | Err(error: KeyError)

  function DigitValue(c: Byte): Option<nat> {
    if 48 <= c <= 57 then Some(c - 48)
    else if 97 <= c <= 102 then Some(c - 87)
    else if 65 <= c <= 70 then Some(c - 55)
    else None
  }

  /** `u8::from_str_radix` in base 16 on two characters; a leading plus sign is allowed. */
  function ParsePair(a: Byte, b: Byte): Option<Byte> {
    match (DigitValue(a), DigitValue(b))
    case (Some(x), Some(y)) => Some(16 * x + y)
    case (None, Some(y)) => if a == PLUS then Some(y) else None
    case (_, None) => None
  }

  function ParsePairs(key: Bytes): Option<Bytes>
    requires |key| % 2 == 0
  {
    if key == [] then Some([])
    else
      match (ParsePair(key[0], key[1]), ParsePairs(key[2..]))
      case (Some(b), Some(rest)) => Some([b] + rest)
      case _ => None
  }

  function DecodeKey(key: Bytes): Decoded<PeerId> {
    if |key| % 2 != 0 || exists i :: 0 <= i < |key| && key[i] >= 128 then Err(NotHexString)
    else
      match ParsePairs(key)
      case None => Err(BadDigit)
      case Some(bytes) => if |bytes| != 8 then Err(WrongLength) else Ok(bytes)
  }

  type Entry = (Bytes, Counter)

  function SortedPeers(s: set<PeerId>): (keys: seq<PeerId>)
    ensures forall k :: k in keys <==> k in s
  {
    var keys := SortedKeys(s);
    assert forall i :: 0 <= i < |keys| ==> keys[i] in s;
    keys
  }

  /** The entries the serializer emits, in key order. */
  function EncodeKeys(keys: seq<PeerId>, m: Counters): seq<Entry>
    requires forall k :: k in keys ==> k in m
  {
    if keys == [] then [] else [(Hex(keys[0]), m[keys[0]])] + EncodeKeys(keys[1..], m)
  }

  function Encode(m: Counters): seq<Entry> {
    EncodeKeys(SortedPeers(m.Keys), m)
  }

  function Decode(entries: seq<Entry>, acc: Counters): Decoded<Counters>
    decreases entries
  {
    if entries == [] then Ok(acc)
    else
      match DecodeKey(entries[0].0)
      case Err(e) => Err(e)
      case Ok(p) => Decode(entries[1..], acc[p := entries[0].1])
  }

  /** The map visitor. */
  method VisitMap(entries: seq<Entry>) returns (r: Decoded<Counters>)
    ensures r == Decode(entries, map[])
  {
    var counters: Counters := map[];
    for i := 0 to |entries|
      invariant Decode(entries[i..], counters) == Decode(entries, map[])
    {
      assert entries[i..][1..] == entries[i + 1..];
      match DecodeKey(entries[i].0) {
        case Err(e) => return Err(e);
        case Ok(peer) => counters := counters[peer := entries[i].1];
      }
    }
    r := Ok(counters);
  }

  lemma {:induction false} HexParses(bytes: Bytes)
    ensures ParsePairs(Hex(bytes)) == Some(bytes)
    ensures forall i :: 0 <= i < |Hex(bytes)| ==> Hex(bytes)[i] < 128
  {
    if bytes != [] {
      HexParses(bytes[1..]);
      var h := Hex(bytes);
      assert h[2..] == Hex(bytes[1..]);
      assert ParsePair(h[0], h[1]) == Some(bytes[0]);
      assert bytes == [bytes[0]] + bytes[1..];
    }
  }

  /** The entries of `m` at `keys`. */
  ghost function Picked(keys: seq<PeerId>, m: Counters): Counters {
    map k: PeerId | k in keys && k in m :: m[k]
  }

  lemma OverwriteFirst(keys: seq<PeerId>, m: Counters, acc: Counters)
    requires keys != [] && forall k :: k in keys ==> k in m
    ensures acc[keys[0] := m[keys[0]]] + Picked(keys[1..], m) == acc + Picked(keys, m)
  {
    assert forall k :: k in keys <==> k == keys[0] || k in keys[1..];
  }

  lemma {:induction false} DecodeEncoded(keys: seq<PeerId>, m: Counters, acc: Counters)
    requires forall k :: k in keys ==> k in m
    ensures Decode(EncodeKeys(keys, m), acc) == Ok(acc + Picked(keys, m))
    decreases keys
  {
    if keys == [] {
      assert acc + Picked(keys, m) == acc;
    } else {
      var p := keys[0];
      HexParses(p);
      assert DecodeKey(Hex(p)) == Ok(p);
      DecodeEncoded(keys[1..], m, acc[p := m[p]]);
      OverwriteFirst(keys, m, acc);
    }
  }

  /** Deserializing a serialized clock gives the clock back. */
  lemma ClockRoundTrip(m: Counters)
    ensures Decode(Encode(m), map[]) == Ok(m)
  {
    var keys := SortedPeers(m.Keys);
    DecodeEncoded(keys, m, map[]);
    assert map[] + Picked(keys, m) == m;
  }

  /** Entries are taken one after the other; the first error ends the decoding. */
  lemma {:induction false} DecodeAppend(a: seq<Entry>, b: seq<Entry>, acc: Counters)
    ensures Decode(a + b, acc) ==
      match Decode(a, acc)
      case Ok(m) => Decode(b, m)
      case Err(e) => Err(e)
    decreases a
  {
    if a == [] {
      assert a + b == b;
    } else {
      assert (a + b)[1..] == a[1..] + b;
      match DecodeKey(a[0].0)
      case Err(_) =>
      case Ok(p) => DecodeAppend(a[1..], b, acc[p := a[0].1]);
    }
  }

  /** So the last entry for a peer is the one that counts. */
  lemma LastEntryCounts(a: seq<Entry>, e: Entry, p: PeerId, acc: Counters)
    requires Decode(a, acc).Ok? && DecodeKey(e.0) == Ok(p)
    ensures Decode(a + [e], acc).Ok? && p in Decode(a + [e], acc).value && Decode(a + [e], acc).value[p] == e.1
  {
    DecodeAppend(a, [e], acc);
    assert [e][1..] == [];
    var m := Decode(a, acc).value;
    assert Decode([], m[p := e.1]) == Ok(m[p := e.1]);
  }

  // ---- Exactly which keys are understood ----

  /** The characters from '0' to '9' and from 'a' to 'f'. */
  predicate IsLowerHex(c: Byte) {
    48 <= c <= 57 || 97 <= c <= 102
  }

  /** Identifiers are written in lower case, two digits for each byte. */
  lemma {:induction false} HexIsLowerCase(bytes: Bytes)
    ensures |Hex(bytes)| == 2 * |bytes| && forall i :: 0 <= i < |Hex(bytes)| ==> IsLowerHex(Hex(bytes)[i])
  {
    if bytes != [] {
      HexIsLowerCase(bytes[1..]);
    }
  }

  /** The hexadecimal digit for `n`, in either case. */
  predicate IsDigitFor(c: Byte, n: nat) {
    n < 16 && (c == HexDigit(n) || (n >= 10 && c == HexDigit(n) - 32))
  }

  lemma DigitValueIff(c: Byte, n: nat)
    ensures DigitValue(c) == Some(n) <==> IsDigitFor(c, n)
  {
  }

  /** Two characters for a byte: its digits, or a plus sign and one digit. */
  predicate SpellsByte(a: Byte, b: Byte, v: Byte) {
    IsDigitFor(b, v % 16) && (IsDigitFor(a, v / 16) || (a == PLUS && v < 16))
  }

  lemma ParsePairIff(a: Byte, b: Byte, v: Byte)
    ensures ParsePair(a, b) == Some(v) <==> SpellsByte(a, b, v)
  {
    DigitValueIff(a, v / 16);
    DigitValueIff(b, v % 16);
  }

  predicate Spells(key: Bytes, bytes: Bytes) {
    if bytes == [] then key == []
    else |key| >= 2 && SpellsByte(key[0], key[1], bytes[0]) && Spells(key[2..], bytes[1..])
  }

  lemma {:induction false} SpellsLength(key: Bytes, bytes: Bytes)
    requires Spells(key, bytes)
    ensures |key| == 2 * |bytes| && forall i :: 0 <= i < |key| ==> key[i] < 128
    decreases bytes
  {
    if bytes != [] {
      SpellsLength(key[2..], bytes[1..]);
      forall i | 0 <= i < |key|
        ensures key[i] < 128
      {
        assert i >= 2 ==> key[i] == key[2..][i - 2];
      }
    }
  }

  lemma {:induction false} ParsePairsIff(key: Bytes, bytes: Bytes)
    requires |key| % 2 == 0
    ensures ParsePairs(key) == Some(bytes) <==> Spells(key, bytes)
    decreases key
  {
    if key != [] && bytes != [] {
      ParsePairIff(key[0], key[1], bytes[0]);
      ParsePairsIff(key[2..], bytes[1..]);
      assert bytes == [bytes[0]] + bytes[1..];
      if ParsePair(key[0], key[1]).Some? && ParsePairs(key[2..]).Some? {
        var b, rest := ParsePair(key[0], key[1]).value, ParsePairs(key[2..]).value;
        assert ([b] + rest)[0] == b && ([b] + rest)[1..] == rest;
      }
    }
  }

  /** A key is understood as a peer exactly when its characters spell the peer's eight bytes. */
  lemma DecodeKeyIff(key: Bytes, p: PeerId)
    ensures DecodeKey(key) == Ok(p) <==> Spells(key, p)
  {
    if Spells(key, p) {
      SpellsLength(key, p);
    }
    if |key| % 2 == 0 {
      ParsePairsIff(key, p);
    }
  }
}
