/** Fixed-size chunking of file data and the aggregate file hash. */
module Chunk {
  import opened ByteStrings

  const U32_MODULUS := 0x1_0000_0000

  datatype ChunkMeta = ChunkMeta(index: nat, offset: nat, len: nat, hash: Digest)

  datatype DataChunk = DataChunk(hash: Digest, data: Bytes)

  function Min(a: nat, b: nat): nat {
    if a <= b then a else b
  }

  /** The slices of `data` of `chunkSize` bytes each, the last one possibly shorter. */
  function Pieces(data: Bytes, chunkSize: nat): seq<Bytes>
    requires chunkSize > 0
  {
    if data == [] then []
    else
      var n := Min(chunkSize, |data|);
      [data[..n]] + Pieces(data[n..], chunkSize)
  }

  /** Where chunk `index` starts: `index * chunkSize`, by repeated addition. */
  function Offset(index: nat, chunkSize: nat): nat {
    if index == 0 then 0 else Offset(index - 1, chunkSize) + chunkSize
  }

  lemma {:induction false} OffsetIsProduct(index: nat, chunkSize: nat)
    ensures Offset(index, chunkSize) == index * chunkSize
  {
    if index > 0 {
      OffsetIsProduct(index - 1, chunkSize);
    }
  }

  function MetaOf(hash: Hasher, index: nat, piece: Bytes, chunkSize: nat): ChunkMeta {
    ChunkMeta(index, Offset(index, chunkSize), |piece| % U32_MODULUS, hash(piece))
  }

  function MetasOf(hash: Hasher, pieces: seq<Bytes>, chunkSize: nat): seq<ChunkMeta> {
    seq(|pieces|, i requires 0 <= i < |pieces| => MetaOf(hash, i, pieces[i], chunkSize))
  }

  function Metadata(hash: Hasher, data: Bytes, chunkSize: nat): seq<ChunkMeta>
    requires chunkSize > 0
  {
    MetasOf(hash, Pieces(data, chunkSize), chunkSize)
  }

  method Split(hash: Hasher, data: Bytes, chunkSize: nat) returns (metas: seq<ChunkMeta>, chunks: seq<DataChunk>)
    requires chunkSize > 0
    ensures metas == Metadata(hash, data, chunkSize)
    ensures |chunks| == |Pieces(data, chunkSize)|
    ensures forall i :: 0 <= i < |chunks| ==>
      chunks[i] == DataChunk(hash(chunks[i].data), Pieces(data, chunkSize)[i])
  {
    metas, chunks := [], [];
    var rest := data;
    ghost var done: seq<Bytes> := [];
    while rest != []
      invariant done + Pieces(rest, chunkSize) == Pieces(data, chunkSize)
      invariant |metas| == |done| == |chunks|
      invariant forall i :: 0 <= i < |done| ==>
        metas[i] == MetaOf(hash, i, done[i], chunkSize) && chunks[i] == DataChunk(hash(done[i]), done[i])
      decreases |rest|
    {
      var slice := rest[..Min(chunkSize, |rest|)];
      var i := |metas|;
      OffsetIsProduct(i, chunkSize);
      metas := metas + [ChunkMeta(i, i * chunkSize, |slice| % U32_MODULUS, hash(slice))];
      chunks := chunks + [DataChunk(hash(slice), slice)];
      assert done + [slice] + Pieces(rest[|slice|..], chunkSize) == done + Pieces(rest, chunkSize);
      rest := rest[|slice|..];
      done := done + [slice];
    }
    assert done == Pieces(data, chunkSize);
  }

  /** Chunk `i` holds the bytes from its offset up to the next boundary or the end. */
  lemma {:induction false} PieceAt(data: Bytes, chunkSize: nat, i: nat)
    requires chunkSize > 0 && i < |Pieces(data, chunkSize)|
    ensures Offset(i, chunkSize) < |data|
    ensures Pieces(data, chunkSize)[i] == data[Offset(i, chunkSize)..Min(Offset(i, chunkSize) + chunkSize, |data|)]
  {
    if i > 0 {
      var n := Min(chunkSize, |data|);
      var o := Offset(i - 1, chunkSize);
      PieceAt(data[n..], chunkSize, i - 1);
      assert n == chunkSize && Offset(i, chunkSize) == n + o;
      SliceOfTail(data, n, o, Min(o + chunkSize, |data| - n));
    }
  }

  lemma SliceOfTail(data: Bytes, n: nat, from: nat, to: nat)
    requires from <= to && n + to <= |data|
    ensures data[n..][from..to] == data[n + from..n + to]
  {
  }

  /** Every byte of the file lies in a chunk. */
  lemma {:induction false} PieceCovering(data: Bytes, chunkSize: nat, x: nat) returns (i: nat)
    requires chunkSize > 0 && x < |data|
    ensures i < |Pieces(data, chunkSize)|
    ensures Offset(i, chunkSize) <= x < Offset(i, chunkSize) + |Pieces(data, chunkSize)[i]|
  {
    var n := Min(chunkSize, |data|);
    if x < n {
      i := 0;
    } else {
      var j := PieceCovering(data[n..], chunkSize, x - n);
      i := j + 1;
    }
  }

  /** Each entry of the metadata says where its chunk lies and what it hashes to; the entries tile
      the file; the stored length is the chunk's exactly when that fits 32 bits. */
  lemma MetadataLocates(hash: Hasher, data: Bytes, chunkSize: nat, i: nat)
    requires chunkSize > 0 && i < |Metadata(hash, data, chunkSize)|
    ensures Offset(i, chunkSize) < |data|
    ensures var metas := Metadata(hash, data, chunkSize);
      var n := Min(chunkSize, |data| - Offset(i, chunkSize));
      && metas[i].index == i && metas[i].offset == Offset(i, chunkSize) && metas[i].offset + n <= |data| && n > 0
      && metas[i].hash == hash(data[metas[i].offset..metas[i].offset + n])
      && (metas[i].len == n <==> n < U32_MODULUS)
      && (if i + 1 < |metas| then metas[i + 1].offset == metas[i].offset + n else metas[i].offset + n == |data|)
  {
    PieceAt(data, chunkSize, i);
    var n := |Pieces(data, chunkSize)[i]|;
    if i + 1 < |Pieces(data, chunkSize)| {
      PieceAt(data, chunkSize, i + 1);
    } else {
      LastPieceEnds(data, chunkSize, i);
    }
  }

  lemma {:induction false} LastPieceEnds(data: Bytes, chunkSize: nat, i: nat)
    requires chunkSize > 0 && i + 1 == |Pieces(data, chunkSize)|
    ensures Offset(i, chunkSize) + |Pieces(data, chunkSize)[i]| == |data|
  {
    var n := Min(chunkSize, |data|);
    if i > 0 {
      LastPieceEnds(data[n..], chunkSize, i - 1);
      assert data[n..] != [];
    } else {
      assert Pieces(data[n..], chunkSize) == [];
    }
  }

  /** The bytes fed to the hasher by `file_hash`. */
  function DigestInput(metas: seq<ChunkMeta>): Bytes {
    if metas == [] then [] else metas[0].hash + DigestInput(metas[1..])
  }

  function FileHashOf(hash: Hasher, metas: seq<ChunkMeta>): Digest {
    hash(DigestInput(metas))
  }

  lemma DigestInputStep(metas: seq<ChunkMeta>, i: nat, input: Bytes)
    requires i < |metas|
    ensures input + DigestInput(metas[i..]) == input + metas[i].hash + DigestInput(metas[i + 1..])
  {
    assert metas[i..][1..] == metas[i + 1..];
  }

  method FileHash(hash: Hasher, metas: seq<ChunkMeta>) returns (digest: Digest)
    ensures digest == FileHashOf(hash, metas)
  {
    var input: Bytes := [];
    for i := 0 to |metas|
      invariant input + DigestInput(metas[i..]) == DigestInput(metas)
    {
      DigestInputStep(metas, i, input);
      input := input + metas[i].hash;
    }
    assert metas[|metas|..] == [];
    assert input == DigestInput(metas);
    digest := hash(input);
  }

  // ---- What the file hash says about the file ----

  /** The aggregate hash is the hash of all chunk hashes one after the other, however many there are. */
  lemma {:induction false} FileHashInput(hash: Hasher, metas: seq<ChunkMeta>)
    ensures FileHashOf(hash, metas) == hash(Concat(seq(|metas|, i requires 0 <= i < |metas| => metas[i].hash)))
  {
    DigestInputParts(metas);
  }

  lemma {:induction false} DigestInputParts(metas: seq<ChunkMeta>)
    ensures DigestInput(metas) == Concat(seq(|metas|, i requires 0 <= i < |metas| => metas[i].hash))
  {
    if metas != [] {
      var parts := seq(|metas|, i requires 0 <= i < |metas| => metas[i].hash);
      DigestInputParts(metas[1..]);
      assert parts[1..] == seq(|metas[1..]|, i requires 0 <= i < |metas[1..]| => metas[1..][i].hash);
    }
  }

  lemma {:induction false} DigestInputInjective(a: seq<ChunkMeta>, b: seq<ChunkMeta>)
    requires DigestInput(a) == DigestInput(b)
    ensures |a| == |b| && forall i :: 0 <= i < |a| ==> a[i].hash == b[i].hash
  {
    if a != [] && b != [] {
      var x, y := DigestInput(a), DigestInput(b);
      assert x[..32] == a[0].hash && y[..32] == b[0].hash;
      assert x[32..] == DigestInput(a[1..]) && y[32..] == DigestInput(b[1..]);
      DigestInputInjective(a[1..], b[1..]);
      assert forall i :: 1 <= i < |a| ==> a[i] == a[1..][i - 1] && b[i] == b[1..][i - 1];
    }
  }

  lemma {:induction false} PiecesDetermineData(a: Bytes, aSize: nat, b: Bytes, bSize: nat)
    requires aSize > 0 && bSize > 0
    requires Pieces(a, aSize) == Pieces(b, bSize)
    ensures a == b
    ensures |Pieces(a, aSize)| > 1 ==> aSize == bSize
    decreases |a|
  {
    if a != [] && b != [] {
      var m, n := Min(aSize, |a|), Min(bSize, |b|);
      var p, q := Pieces(a, aSize), Pieces(b, bSize);
      assert p[0] == a[..m] && q[0] == b[..n];
      assert p[1..] == Pieces(a[m..], aSize) && q[1..] == Pieces(b[n..], bSize);
      PiecesDetermineData(a[m..], aSize, b[n..], bSize);
      assert a == a[..m] + a[m..] && b == b[..n] + b[n..];
    }
  }

  /** The hash inputs that `file_node` feeds to the hasher for one file. */
  ghost function HashInputs(hash: Hasher, data: Bytes, chunkSize: nat): set<Bytes>
    requires chunkSize > 0
  {
    (set p | p in Pieces(data, chunkSize)) + {DigestInput(Metadata(hash, data, chunkSize))}
  }

  /** Equal file hashes mean equal data and equal chunk lists, even across different chunk sizes. */
  lemma FileHashSound(hash: Hasher, a: Bytes, aSize: nat, b: Bytes, bSize: nat)
    requires aSize > 0 && bSize > 0
    requires CollisionFree(hash, HashInputs(hash, a, aSize) + HashInputs(hash, b, bSize))
    requires FileHashOf(hash, Metadata(hash, a, aSize)) == FileHashOf(hash, Metadata(hash, b, bSize))
    ensures a == b
    ensures Metadata(hash, a, aSize) == Metadata(hash, b, bSize)
  {
    var p, q := Pieces(a, aSize), Pieces(b, bSize);
    var m, n := Metadata(hash, a, aSize), Metadata(hash, b, bSize);
    assert DigestInput(m) == DigestInput(n);
    DigestInputInjective(m, n);
    forall i | 0 <= i < |p|
      ensures p[i] == q[i]
    {
      assert m[i].hash == hash(p[i]) && n[i].hash == hash(q[i]);
      assert p[i] in p && q[i] in q;
    }
    PiecesDetermineData(a, aSize, b, bSize);
    forall i | 0 <= i < |p|
      ensures m[i] == n[i]
    {
      assert i > 0 ==> aSize == bSize;
    }
  }
}
