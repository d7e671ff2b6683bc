/** Serving chunks of a file and patching them into the receiver's copy. */
module Transfer {
  import opened ByteStrings
  import opened Chunk

  const USIZE_MAX := 0xFFFF_FFFF_FFFF_FFFF

  /** The storage limits both ends read from their configuration. */
  datatype Limits = Limits(chunkSize: nat, maxChunkIndex: nat, maxFileSize: nat)

  /** A chunk on the wire: its index and its bytes. */
  type Served = (nat, Bytes)

  /** The answer to a chunk request: too large and unknown indices are dropped, repeats are kept. */
  function Serve(lim: Limits, data: Bytes, indices: seq<nat>): seq<Served>
    requires lim.chunkSize > 0
  {
    if indices == [] then [] else ServeOne(lim, data, indices[0]) + Serve(lim, data, indices[1..])
  }

  function ServeOne(lim: Limits, data: Bytes, i: nat): seq<Served>
    requires lim.chunkSize > 0
  {
    if i < lim.maxChunkIndex && i < |Pieces(data, lim.chunkSize)| then [(i, Pieces(data, lim.chunkSize)[i])] else []
  }

  method ServeChunks(hash: Hasher, lim: Limits, data: Bytes, indices: seq<nat>) returns (served: seq<Served>)
    requires lim.chunkSize > 0
    ensures served == Serve(lim, data, indices)
  {
    var _, chunks := Split(hash, data, lim.chunkSize);
    served := [];
    for k := 0 to |indices|
      invariant served + Serve(lim, data, indices[k..]) == Serve(lim, data, indices)
    {
      var i := indices[k];
      ServeStep(lim, data, indices, k, served);
      if i < lim.maxChunkIndex && i < |chunks| {
        served := served + [(i, chunks[i].data)];
      } else {
        assert served + ServeOne(lim, data, i) == served;
      }
    }
    assert indices[|indices|..] == [];
  }

  lemma ServeStep(lim: Limits, data: Bytes, indices: seq<nat>, k: nat, served: seq<Served>)
    requires lim.chunkSize > 0 && k < |indices|
    ensures served + Serve(lim, data, indices[k..])
         == served + ServeOne(lim, data, indices[k]) + Serve(lim, data, indices[k + 1..])
  {
    assert indices[k..][1..] == indices[k + 1..];
  }

  /** Grow with zeros up to `n` bytes; never shrinks. */
  function Grow(buf: Bytes, n: nat): Bytes {
    if |buf| < n then buf + seq(n - |buf|, _ => 0) else buf
  }

  function Overwrite(buf: Bytes, offset: nat, data: Bytes): (r: Bytes)
    ensures |r| == if |buf| < offset + |data| then offset + |data| else |buf|
  {
    var grown := Grow(buf, offset + |data|);
    grown[..offset] + data + grown[offset + |data|..]
  }

  /** A chunk the receiver ignores: index over the limit, or an offset that does not fit the machine word. */
  predicate Skipped(lim: Limits, c: Served) {
    c.0 >= lim.maxChunkIndex || Offset(c.0, lim.chunkSize) > USIZE_MAX || Offset(c.0, lim.chunkSize) + |c.1| > USIZE_MAX
  }

  predicate TooLarge(lim: Limits, c: Served) {
    !Skipped(lim, c) && Offset(c.0, lim.chunkSize) + |c.1| > lim.maxFileSize
  }

  /** The patched buffer, or `None` when a chunk would exceed the maximal file size. */
  function Patch(lim: Limits, buf: Bytes, served: seq<Served>): Option<Bytes>
    decreases served
  {
    if served == [] then Some(buf)
    else
      var c := served[0];
      if Skipped(lim, c) then Patch(lim, buf, served[1..])
      else if TooLarge(lim, c) then None
      else Patch(lim, Overwrite(buf, Offset(c.0, lim.chunkSize), c.1), served[1..])
  }

  /** One chunk, whose offset is `offset`. */
  lemma PatchStep(lim: Limits, buf: Bytes, served: seq<Served>, k: nat, offset: nat)
    requires k < |served| && offset == Offset(served[k].0, lim.chunkSize)
    ensures var c := served[k];
      Patch(lim, buf, served[k..]) ==
        if c.0 >= lim.maxChunkIndex || offset > USIZE_MAX || offset + |c.1| > USIZE_MAX
        then Patch(lim, buf, served[k + 1..])
        else if offset + |c.1| > lim.maxFileSize then None
        else Patch(lim, Overwrite(buf, offset, c.1), served[k + 1..])
  {
    assert served[k..][0] == served[k] && served[k..][1..] == served[k + 1..];
  }

  /** Resizing and copying in is overwriting. */
  method WriteChunk(buf: Bytes, offset: nat, data: Bytes) returns (r: Bytes)
    ensures r == Overwrite(buf, offset, data)
  {
    r := buf;
    if |r| < offset + |data| {
      r := r + seq(offset + |data| - |r|, _ => 0);
    }
    r := r[..offset] + data + r[offset + |data|..];
  }

  method PatchChunks(lim: Limits, local: Bytes, served: seq<Served>) returns (r: Option<Bytes>)
    ensures r == Patch(lim, local, served)
  {
    var fileData := local;
    for k := 0 to |served|
      invariant Patch(lim, fileData, served[k..]) == Patch(lim, local, served)
    {
      var (chunkIndex, data) := served[k];
      var offset := chunkIndex * lim.chunkSize;
      OffsetIsProduct(chunkIndex, lim.chunkSize);
      PatchStep(lim, fileData, served, k, offset);
      if chunkIndex >= lim.maxChunkIndex {
        continue;
      }
      if offset > USIZE_MAX {
        continue;
      }
      var requiredLen := offset + |data|;
      if requiredLen > USIZE_MAX {
        continue;
      }
      if requiredLen > lim.maxFileSize {
        return None;
      }
      fileData := WriteChunk(fileData, offset, data);
    }
    assert served[|served|..] == [];
    r := Some(fileData);
  }

  // ---- Order and limits ----

  /** Requests are answered one after the other, repeats included. */
  lemma {:induction false} ServeAppend(lim: Limits, data: Bytes, a: seq<nat>, b: seq<nat>)
    requires lim.chunkSize > 0
    ensures Serve(lim, data, a + b) == Serve(lim, data, a) + Serve(lim, data, b)
  {
    if a == [] {
      assert a + b == b;
    } else {
      assert (a + b)[1..] == a[1..] + b;
      ServeAppend(lim, data, a[1..], b);
    }
  }

  /** One request is answered with the bytes at its place, unless its index is too large or past the end. */
  lemma ServeSingle(lim: Limits, data: Bytes, i: nat)
    requires lim.chunkSize > 0
    ensures var off := Offset(i, lim.chunkSize);
      Serve(lim, data, [i]) ==
        if i < lim.maxChunkIndex && off < |data| then [(i, data[off..Min(off + lim.chunkSize, |data|)])] else []
  {
    ServedAlone(lim, data, i);
    PieceIs(data, lim.chunkSize, i);
  }

  lemma PieceIs(data: Bytes, chunkSize: nat, i: nat)
    requires chunkSize > 0
    ensures i < |Pieces(data, chunkSize)| <==> Offset(i, chunkSize) < |data|
    ensures Offset(i, chunkSize) < |data| ==>
      Pieces(data, chunkSize)[i] == data[Offset(i, chunkSize)..Min(Offset(i, chunkSize) + chunkSize, |data|)]
  {
    PieceCount(data, chunkSize, i);
    if i < |Pieces(data, chunkSize)| {
      PieceAt(data, chunkSize, i);
    }
  }

  lemma ServedAlone(lim: Limits, data: Bytes, i: nat)
    requires lim.chunkSize > 0
    ensures Serve(lim, data, [i]) == ServeOne(lim, data, i)
  {
    assert [i][1..] == [];
    assert Serve(lim, data, []) == [];
    assert ServeOne(lim, data, i) + [] == ServeOne(lim, data, i);
  }

  /** There are as many chunks as start before the end. */
  lemma {:induction false} PieceCount(data: Bytes, chunkSize: nat, i: nat)
    requires chunkSize > 0
    ensures i < |Pieces(data, chunkSize)| <==> Offset(i, chunkSize) < |data|
    decreases |data|
  {
    if data != [] && i > 0 {
      var n := Min(chunkSize, |data|);
      PieceCount(data[n..], chunkSize, i - 1);
      if n < chunkSize {
        OffsetGrows(i - 1, chunkSize);
      }
    }
  }

  lemma OffsetGrows(i: nat, chunkSize: nat)
    ensures Offset(i, chunkSize) >= 0 && Offset(i + 1, chunkSize) == Offset(i, chunkSize) + chunkSize
  {
  }

  /** Chunks are applied in the order in which they come. */
  lemma {:induction false} PatchAppend(lim: Limits, buf: Bytes, a: seq<Served>, b: seq<Served>)
    ensures Patch(lim, buf, a + b) ==
      if Patch(lim, buf, a).Some? then Patch(lim, Patch(lim, buf, a).value, b) else None
    decreases a
  {
    if a == [] {
      assert a + b == b;
    } else {
      var c := a[0];
      assert (a + b)[1..] == a[1..] + b;
      PatchAppend(lim, if Skipped(lim, c) then buf else Overwrite(buf, Offset(c.0, lim.chunkSize), c.1), a[1..], b);
    }
  }

  /** What one chunk does: it is ignored, abandons the transfer, or writes its bytes at its offset. */
  lemma PatchSingle(lim: Limits, buf: Bytes, c: Served)
    ensures var off, r := Offset(c.0, lim.chunkSize), Patch(lim, buf, [c]);
      if c.0 >= lim.maxChunkIndex || off + |c.1| > USIZE_MAX then r == Some(buf)
      else if off + |c.1| > lim.maxFileSize then r == None
      else r.Some? && IsOverwritten(r.value, buf, off, c.1)
  {
    PatchedAlone(lim, buf, c);
    OverwriteIs(buf, Offset(c.0, lim.chunkSize), c.1);
  }

  /** `r` is `buf`, grown with zeros where needed, with `data` at `off`. */
  ghost predicate IsOverwritten(r: Bytes, buf: Bytes, off: nat, data: Bytes) {
    && |r| == (if |buf| < off + |data| then off + |data| else |buf|)
    && forall x: nat :: x < |r| ==>
      r[x] == if off <= x < off + |data| then data[x - off] else if x < |buf| then buf[x] else 0
  }

  lemma OverwriteIs(buf: Bytes, off: nat, data: Bytes)
    ensures IsOverwritten(Overwrite(buf, off, data), buf, off, data)
  {
    forall x: nat | x < |Overwrite(buf, off, data)|
      ensures Overwrite(buf, off, data)[x] ==
        if off <= x < off + |data| then data[x - off] else if x < |buf| then buf[x] else 0
    {
      OverwritePointwise(buf, off, data, x);
    }
  }

  lemma PatchedAlone(lim: Limits, buf: Bytes, c: Served)
    ensures Patch(lim, buf, [c]) ==
      if Skipped(lim, c) then Some(buf) else if TooLarge(lim, c) then None
      else Some(Overwrite(buf, Offset(c.0, lim.chunkSize), c.1))
  {
    assert [c][1..] == [];
    var r := if Skipped(lim, c) then buf else Overwrite(buf, Offset(c.0, lim.chunkSize), c.1);
    assert Patch(lim, r, []) == Some(r);
  }

  /** No transfer makes a file longer than the size limit. */
  lemma {:induction false} PatchBounded(lim: Limits, buf: Bytes, served: seq<Served>)
    requires Patch(lim, buf, served).Some?
    ensures |Patch(lim, buf, served).value| <= |buf| || |Patch(lim, buf, served).value| <= lim.maxFileSize
    decreases served
  {
    if served != [] {
      var c := served[0];
      PatchBounded(lim, if Skipped(lim, c) then buf else Overwrite(buf, Offset(c.0, lim.chunkSize), c.1), served[1..]);
    }
  }

  // ---- What patching computes ----

  /** Byte `x` is written by some chunk that is not ignored. */
  ghost predicate Covered(lim: Limits, served: seq<Served>, x: nat) {
    exists c :: c in served && CoveredBy(lim, c, x)
  }

  /** Every chunk carries the bytes `remote` holds at its place. */
  ghost predicate Genuine(lim: Limits, remote: Bytes, served: seq<Served>) {
    lim.chunkSize > 0 && forall c :: c in served ==>
      c.0 < |Pieces(remote, lim.chunkSize)| && c.1 == Pieces(remote, lim.chunkSize)[c.0]
  }

  lemma {:induction false} ServedGenuine(lim: Limits, remote: Bytes, indices: seq<nat>)
    requires lim.chunkSize > 0
    ensures Genuine(lim, remote, Serve(lim, remote, indices))
    ensures forall c :: c in Serve(lim, remote, indices) ==> c.0 < lim.maxChunkIndex && c.0 in indices
    ensures forall i :: i in indices && i < lim.maxChunkIndex && i < |Pieces(remote, lim.chunkSize)| ==>
      (i, Pieces(remote, lim.chunkSize)[i]) in Serve(lim, remote, indices)
  {
    if indices != [] {
      ServedGenuine(lim, remote, indices[1..]);
    }
  }

  lemma GenuinePiece(remote: Bytes, lim: Limits, c: Served)
    requires Genuine(lim, remote, [c])
    ensures var off := Offset(c.0, lim.chunkSize);
      off < off + |c.1| <= |remote| && c.1 == remote[off..off + |c.1|]
  {
    assert c in [c];
    PieceAt(remote, lim.chunkSize, c.0);
  }

  lemma OverwritePointwise(buf: Bytes, off: nat, data: Bytes, x: nat)
    requires x < |Overwrite(buf, off, data)|
    ensures Overwrite(buf, off, data)[x] ==
      if off <= x < off + |data| then data[x - off] else if x < |buf| then buf[x] else 0
  {
  }

  lemma OverwriteAt(remote: Bytes, buf: Bytes, lim: Limits, c: Served)
    requires Genuine(lim, remote, [c])
    ensures var off := Offset(c.0, lim.chunkSize);
      var r := Overwrite(buf, off, c.1);
      && off < off + |c.1| <= |remote|
      && forall x: nat :: x < |r| ==>
        r[x] == if off <= x < off + |c.1| then remote[x] else if x < |buf| then buf[x] else 0
  {
    GenuinePiece(remote, lim, c);
    var off := Offset(c.0, lim.chunkSize);
    var r := Overwrite(buf, off, c.1);
    forall x: nat | x < |r|
      ensures r[x] == if off <= x < off + |c.1| then remote[x] else if x < |buf| then buf[x] else 0
    {
      OverwritePointwise(buf, off, c.1, x);
    }
  }

  /** Patching fails exactly when some chunk that is not ignored ends beyond the maximal file size. */
  lemma {:induction false} PatchFailsIff(lim: Limits, buf: Bytes, served: seq<Served>)
    ensures Patch(lim, buf, served) == None <==> exists c :: c in served && TooLarge(lim, c)
    decreases served
  {
    if served != [] {
      var c := served[0];
      assert forall d :: d in served <==> d == c || d in served[1..];
      PatchFailsIff(lim, buf, served[1..]);
      PatchFailsIff(lim, Overwrite(buf, Offset(c.0, lim.chunkSize), c.1), served[1..]);
    }
  }

  predicate CoveredBy(lim: Limits, c: Served, x: nat) {
    !Skipped(lim, c) && Offset(c.0, lim.chunkSize) <= x < Offset(c.0, lim.chunkSize) + |c.1|
  }

  lemma CoveredStep(lim: Limits, served: seq<Served>)
    requires served != []
    ensures forall x: nat :: Covered(lim, served, x) <==> CoveredBy(lim, served[0], x) || Covered(lim, served[1..], x)
  {
    assert forall d :: d in served <==> d == served[0] || d in served[1..];
  }

  lemma GenuineTail(lim: Limits, remote: Bytes, served: seq<Served>)
    requires served != [] && Genuine(lim, remote, served)
    ensures Genuine(lim, remote, [served[0]]) && Genuine(lim, remote, served[1..])
  {
  }

  /** Whatever subset arrives, in whatever order and however often: covered bytes are the
      remote's, the others are the old ones, and gaps beyond the old end are zero. */
  lemma {:induction false} PatchExact(lim: Limits, remote: Bytes, local: Bytes, served: seq<Served>)
    requires Genuine(lim, remote, served)
    requires Patch(lim, local, served).Some?
    ensures var r := Patch(lim, local, served).value;
      && |local| <= |r| && (|r| <= |local| || |r| <= |remote|)
      && (forall x: nat :: Covered(lim, served, x) ==> x < |r| && x < |remote|)
      && (|r| == |local| || Covered(lim, served, |r| - 1))
      && forall x: nat :: x < |r| ==>
        r[x] == if Covered(lim, served, x) then remote[x] else if x < |local| then local[x] else 0
    decreases served
  {
    if served != [] {
      var c, rest := served[0], served[1..];
      CoveredStep(lim, served);
      GenuineTail(lim, remote, served);
      if Skipped(lim, c) {
        PatchExact(lim, remote, local, rest);
      } else {
        OverwriteAt(remote, local, lim, c);
        var off := Offset(c.0, lim.chunkSize);
        var mid := Overwrite(local, off, c.1);
        PatchExact(lim, remote, mid, rest);
      }
    }
  }

  /** The remote file with the old tail beyond it: patching never shortens a file. */
  function Patched(local: Bytes, remote: Bytes): Bytes {
    if |local| <= |remote| then remote else remote + local[|remote|..]
  }

  /** The transfer of `remote` stays within the receiver's limits. */
  predicate Fits(lim: Limits, remote: Bytes) {
    && lim.chunkSize > 0
    && |Pieces(remote, lim.chunkSize)| <= lim.maxChunkIndex
    && |remote| <= lim.maxFileSize <= USIZE_MAX
  }

  lemma FittingNotSkipped(lim: Limits, remote: Bytes, c: Served)
    requires Fits(lim, remote) && Genuine(lim, remote, [c])
    ensures !Skipped(lim, c) && !TooLarge(lim, c)
  {
    GenuinePiece(remote, lim, c);
  }

  lemma FittingTransferSucceeds(lim: Limits, remote: Bytes, local: Bytes, indices: seq<nat>)
    requires Fits(lim, remote)
    ensures Patch(lim, local, Serve(lim, remote, indices)).Some?
    ensures forall c :: c in Serve(lim, remote, indices) ==> !Skipped(lim, c)
  {
    var served := Serve(lim, remote, indices);
    ServedGenuine(lim, remote, indices);
    forall c | c in served
      ensures !Skipped(lim, c) && !TooLarge(lim, c)
    {
      FittingNotSkipped(lim, remote, c);
    }
    PatchFailsIff(lim, local, served);
  }

  /** The chunks outside `indices` already match in `local`. */
  ghost predicate AlreadyMatching(lim: Limits, remote: Bytes, local: Bytes, indices: seq<nat>)
    requires lim.chunkSize > 0
  {
    forall i: nat :: i < |Pieces(remote, lim.chunkSize)| && i !in indices ==>
      MatchesAt(local, Offset(i, lim.chunkSize), Pieces(remote, lim.chunkSize)[i])
  }

  predicate MatchesAt(local: Bytes, offset: nat, piece: Bytes) {
    offset + |piece| <= |local| && local[offset..offset + |piece|] == piece
  }

  lemma CoveredByIndex(lim: Limits, remote: Bytes, indices: seq<nat>, i: nat, x: nat)
    requires Fits(lim, remote) && i in indices && i < |Pieces(remote, lim.chunkSize)|
    requires Offset(i, lim.chunkSize) <= x < Offset(i, lim.chunkSize) + |Pieces(remote, lim.chunkSize)[i]|
    ensures Covered(lim, Serve(lim, remote, indices), x)
  {
    ServedGenuine(lim, remote, indices);
    var c := (i, Pieces(remote, lim.chunkSize)[i]);
    assert c in Serve(lim, remote, indices);
    FittingNotSkipped(lim, remote, c);
  }

  lemma UncoveredByte(lim: Limits, remote: Bytes, indices: seq<nat>, x: nat, local: Bytes)
    requires Fits(lim, remote) && AlreadyMatching(lim, remote, local, indices)
    requires x < |remote| && !Covered(lim, Serve(lim, remote, indices), x)
    ensures x < |local| && local[x] == remote[x]
  {
    var i := PieceCovering(remote, lim.chunkSize, x);
    if i in indices {
      CoveredByIndex(lim, remote, indices, i, x);
      assert false;
    }
    var piece, off := Pieces(remote, lim.chunkSize)[i], Offset(i, lim.chunkSize);
    assert MatchesAt(local, off, piece);
    MatchingByte(lim, remote, local, i, x);
  }

  lemma MatchingByte(lim: Limits, remote: Bytes, local: Bytes, i: nat, x: nat)
    requires lim.chunkSize > 0 && i < |Pieces(remote, lim.chunkSize)|
    requires MatchesAt(local, Offset(i, lim.chunkSize), Pieces(remote, lim.chunkSize)[i])
    requires Offset(i, lim.chunkSize) <= x < Offset(i, lim.chunkSize) + |Pieces(remote, lim.chunkSize)[i]|
    ensures x < |remote| && x < |local| && local[x] == remote[x]
  {
    var piece, off := Pieces(remote, lim.chunkSize)[i], Offset(i, lim.chunkSize);
    PieceAt(remote, lim.chunkSize, i);
    assert local[off..off + |piece|][x - off] == piece[x - off];
  }

  /** If the chunks not asked for already match, and the old file is no longer than the
      remote one, the result is the remote file. */
  lemma PartialTransfer(lim: Limits, remote: Bytes, local: Bytes, indices: seq<nat>)
    requires Fits(lim, remote) && |local| <= |remote|
    requires AlreadyMatching(lim, remote, local, indices)
    ensures Patch(lim, local, Serve(lim, remote, indices)) == Some(remote)
  {
    var served := Serve(lim, remote, indices);
    ServedGenuine(lim, remote, indices);
    FittingTransferSucceeds(lim, remote, local, indices);
    PatchExact(lim, remote, local, served);
    var r := Patch(lim, local, served).value;
    forall x: nat | x < |remote| && !Covered(lim, served, x)
      ensures x < |local| && local[x] == remote[x]
    {
      UncoveredByte(lim, remote, indices, x, local);
    }
    if |remote| > 0 {
      assert Covered(lim, served, |remote| - 1) || |remote| - 1 < |local|;
    }
    assert |r| == |remote|;
    assert r == remote;
  }

  /** With every chunk served, the result is the remote file followed by the old tail. */
  lemma FullTransfer(lim: Limits, remote: Bytes, local: Bytes, indices: seq<nat>)
    requires Fits(lim, remote)
    requires forall i: nat :: i < |Pieces(remote, lim.chunkSize)| ==> i in indices
    ensures Patch(lim, local, Serve(lim, remote, indices)) == Some(Patched(local, remote))
  {
    var served := Serve(lim, remote, indices);
    ServedGenuine(lim, remote, indices);
    FittingTransferSucceeds(lim, remote, local, indices);
    PatchExact(lim, remote, local, served);
    forall x: nat | x < |remote|
      ensures Covered(lim, served, x)
    {
      var i := PieceCovering(remote, lim.chunkSize, x);
      CoveredByIndex(lim, remote, indices, i, x);
    }
    assert |remote| > 0 ==> Covered(lim, served, |remote| - 1);
    FullyCovered(lim, remote, local, served, Patch(lim, local, served).value);
  }

  lemma FullyCovered(lim: Limits, remote: Bytes, local: Bytes, served: seq<Served>, r: Bytes)
    requires forall x: nat :: Covered(lim, served, x) <==> x < |remote|
    requires |local| <= |r| && (|r| <= |local| || |r| <= |remote|) && (|remote| > 0 ==> |remote| - 1 < |r|)
    requires forall x: nat :: x < |r| ==>
      r[x] == if Covered(lim, served, x) then remote[x] else if x < |local| then local[x] else 0
    ensures r == Patched(local, remote)
  {
  }

  /** A full transfer replaces the file exactly when the old copy was no longer than the new one;
      repeating it changes nothing, and the way back finds nothing left to change. */
  lemma ReplacedIff(local: Bytes, remote: Bytes)
    ensures Patched(local, remote) == remote <==> |local| <= |remote|
    ensures Patched(Patched(local, remote), remote) == Patched(local, remote)
    ensures Patched(remote, Patched(local, remote)) == Patched(local, remote)
  {
  }
}
