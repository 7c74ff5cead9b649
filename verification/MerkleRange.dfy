/** When Verify succeeds on a range, and what it has written then. */
module MerkleRange {
  import opened Words
  import opened MerkleLayout
  import opened MerkleTree
  import opened MerkleVerify
  import opened MerkleTheorem

  function Read(q: Request, i: nat): Bytes { ReadAt(q.file, i * BLOCK_SIZE, BLOCK_SIZE) }

  /** The bytes of the file from a to b, as many as there are. */
  function FileRange(q: Request, a: nat, b: nat): Bytes
    requires a <= b
  {
    q.file[Min(a, |q.file|)..Min(b, |q.file|)]
  }

  /** How far the range has come before block i. */
  function Reached(q: Request, i: nat): nat
    requires q.count > 0
  {
    if i > LastBlock(q) then q.offset + q.count else From(q, i)
  }

  /** Every block from i on that the file has verifies. */
  ghost predicate AllVerify(H: Hash, encode: Encoding, q: Request, i: nat)
    requires q.count > 0
  {
    forall j :: i <= j <= LastBlock(q) && Read(q, j) != [] ==> Verifies(H, encode, q, j, Read(q, j))
  }

  /** Block j is the first from i on that does not verify. */
  ghost predicate FirstBad(H: Hash, encode: Encoding, q: Request, i: nat, j: nat)
    requires q.count > 0
  {
    && i <= j <= LastBlock(q) && Read(q, j) != [] && !Verifies(H, encode, q, j, Read(q, j))
    && forall k :: i <= k < j ==> Verifies(H, encode, q, k, Read(q, k))
  }

  lemma ReachedNext(q: Request, i: nat)
    requires q.count > 0 && FirstBlock(q) <= i <= LastBlock(q)
    ensures i * BLOCK_SIZE <= Reached(q, i) < UpTo(q, i) == Reached(q, i + 1) <= (i + 1) * BLOCK_SIZE
    ensures q.offset <= Reached(q, i) && Reached(q, i + 1) <= q.offset + q.count
  {
    hide FirstBlock, LastBlock;
    PieceBounds(q, i, []);
    assert FirstBlock(q) * BLOCK_SIZE <= q.offset <= Reached(q, i) by { OffsetInFirst(q, i); }
  }

  lemma OffsetInFirst(q: Request, i: nat)
    requires FirstBlock(q) <= i
    ensures FirstBlock(q) * BLOCK_SIZE <= q.offset <= From(q, i)
  {
  }

  lemma ReadIs(q: Request, i: nat)
    ensures Read(q, i) == FileRange(q, i * BLOCK_SIZE, (i + 1) * BLOCK_SIZE)
    ensures Read(q, i) == [] <==> |q.file| <= i * BLOCK_SIZE
    ensures |Read(q, i)| < BLOCK_SIZE <==> |q.file| < (i + 1) * BLOCK_SIZE
  {
  }

  /** The part of block i that is written is that part of the file. */
  lemma PieceIsRange(q: Request, i: nat)
    requires q.count > 0 && FirstBlock(q) <= i <= LastBlock(q) && Read(q, i) != []
    ensures Reached(q, i) <= Reached(q, i + 1)
    ensures Piece(q, i, Read(q, i)) == FileRange(q, Reached(q, i), Reached(q, i + 1))
  {
    hide FirstBlock, LastBlock, ReadAt, Piece, UpTo, From, Reached;
    var a, bytes := i * BLOCK_SIZE, Read(q, i);
    ReachedNext(q, i);
    ReadIs(q, i);
    PieceBounds(q, i, bytes);
    assert From(q, i) == Reached(q, i) by { ReachedIsFrom(q, i); }
    SliceOfRange(q, a, a + BLOCK_SIZE, Reached(q, i), Reached(q, i + 1));
  }

  lemma ReachedIsFrom(q: Request, i: nat)
    requires q.count > 0 && i <= LastBlock(q)
    ensures Reached(q, i) == From(q, i)
  {
  }

  lemma SliceOfRange(q: Request, a: nat, b: nat, c: nat, d: nat)
    requires a < |q.file| && a <= c <= d <= b
    ensures var r := FileRange(q, a, b); r[Min(c - a, |r|)..Min(d - a, |r|)] == FileRange(q, c, d)
  {
    var f, r := q.file, FileRange(q, a, b);
    var x, y := Min(c - a, |r|), Min(d - a, |r|);
    assert a + x == Min(c, |f|) && a + y == Min(d, |f|);
    assert r[x..y] == f[a + x..a + y];
  }

  lemma RangeExtends(q: Request, a: nat, b: nat, c: nat)
    requires a <= b <= c
    ensures FileRange(q, a, b) + FileRange(q, b, c) == FileRange(q, a, c)
  {
  }

  /** Behind the end of the file nothing is added, and nothing is to be verified. */
  lemma NothingMore(H: Hash, encode: Encoding, q: Request, i: nat)
    requires q.count > 0 && FirstBlock(q) <= i <= LastBlock(q) && Read(q, i) == []
    ensures AllVerify(H, encode, q, i) && q.offset <= Reached(q, i)
    ensures FileRange(q, q.offset, Reached(q, i)) == FileRange(q, q.offset, q.offset + q.count)
    ensures |q.file| < (LastBlock(q) + 1) * BLOCK_SIZE
  {
    hide FirstBlock, LastBlock, ReadAt, Verifies, UpTo, From, Reached;
    ReachedNext(q, i);
    ReadIs(q, i);
    forall j | i <= j <= LastBlock(q) ensures Read(q, j) == [] { ReadIs(q, j); }
  }

  /** What a run over the blocks from i on returns, from the file alone. */
  ghost predicate Decided(H: Hash, encode: Encoding, q: Request, i: nat, r: Outcome)
    requires q.count > 0
  {
    && (r.ok <==> AllVerify(H, encode, q, i))
    && (r.ok ==> r.out == FileRange(q, q.offset, q.offset + q.count))
    && (r.ok ==> (r.eof <==> |q.file| < (LastBlock(q) + 1) * BLOCK_SIZE))
    && (!r.ok ==> !r.eof && exists j :: FirstBad(H, encode, q, i, j) && q.offset <= Reached(q, j)
                                        && r.out == FileRange(q, q.offset, Reached(q, j)))
  }

  lemma {:induction false} FromDecides(H: Hash, encode: Encoding, q: Request, i: nat, out: Bytes, eof: bool)
    requires q.count > 0 && FirstBlock(q) <= i <= LastBlock(q) + 1 && q.offset <= Reached(q, i)
    requires out == FileRange(q, q.offset, Reached(q, i))
    requires eof <==> i > FirstBlock(q) && |q.file| < i * BLOCK_SIZE
    ensures Decided(H, encode, q, i, VerifyFrom(H, encode, q, i, out, eof))
    decreases LastBlock(q) + 1 - i
  {
    hide FirstBlock, LastBlock, ReadAt, Piece, UpTo, From, Reached, Verifies, FileRange;
    if i > LastBlock(q) {
      FirstIsInRange(q);
      assert Reached(q, i) == q.offset + q.count by { ReachedEnd(q, i); }
    } else {
      var bytes := Read(q, i);
      ReadIs(q, i);
      if bytes == [] {
        NothingMore(H, encode, q, i);
      } else if Verifies(H, encode, q, i, bytes) {
        ReachedNext(q, i);
        PieceIsRange(q, i);
        RangeExtends(q, q.offset, Reached(q, i), Reached(q, i + 1));
        var out2 := out + Piece(q, i, bytes);
        FromDecides(H, encode, q, i + 1, out2, |bytes| < BLOCK_SIZE);
        OneMore(H, encode, q, i, VerifyFrom(H, encode, q, i + 1, out2, |bytes| < BLOCK_SIZE));
      } else {
        assert FirstBad(H, encode, q, i, i);
      }
    }
  }

  lemma ReachedEnd(q: Request, i: nat)
    requires q.count > 0 && i > LastBlock(q)
    ensures Reached(q, i) == q.offset + q.count
  {
  }

  lemma OneMore(H: Hash, encode: Encoding, q: Request, i: nat, r: Outcome)
    requires q.count > 0 && i <= LastBlock(q) && Verifies(H, encode, q, i, Read(q, i))
    requires Decided(H, encode, q, i + 1, r)
    ensures Decided(H, encode, q, i, r)
  {
    hide FirstBlock, LastBlock, ReadAt, From, Reached, Verifies, FileRange;
    if !r.ok {
      var j :| FirstBad(H, encode, q, i + 1, j) && q.offset <= Reached(q, j)
               && r.out == FileRange(q, q.offset, Reached(q, j));
      assert FirstBad(H, encode, q, i, j);
    }
  }

  /** Verify of a range succeeds if and only if every block of the range that the
      file has verifies. Then it has written exactly that range of the file, as far
      as there is one, and reports the end of the file exactly if the file ends in
      the last block or before. A call that fails has written what comes before the
      first block that does not verify. */
  lemma VerifyDecides(H: Hash, encode: Encoding, q: Request)
    ensures q.count < 0 || q.alg.OtherAlgorithm? ==> VerifyResult(H, encode, q) == Outcome(false, false, [])
    ensures q.count > 0 && !q.alg.OtherAlgorithm? ==>
              Decided(H, encode, q, FirstBlock(q), VerifyResult(H, encode, q))
  {
    hide Decided, VerifyFrom;
    if q.count > 0 && !q.alg.OtherAlgorithm? {
      FromDecides(H, encode, q, FirstBlock(q), [], false);
    }
  }

  /** Block i, as it was read, is that of the file with the given data. */
  predicate SameBlock(q: Request, data: Bytes, i: nat) {
    i < NumBlocks(|data|) && ZeroPadded(Read(q, i)) == BlockAt(data, i)
  }

  /** Every block that was read for the range is the file's. */
  ghost predicate SameBlocks(q: Request, data: Bytes)
    requires q.count > 0
  {
    forall i :: FirstBlock(q) <= i <= LastBlock(q) && Read(q, i) != [] ==> SameBlock(q, data, i)
  }

  /** Changed data is refused, whatever the tree file holds: if Verify of a range
      succeeds, every block that was read for it is the file's, and if the range is
      all there, what was written is exactly that range of the file. */
  lemma SuccessIsGenuine(H: Hash, encode: Encoding, alg: Algorithm, data: Bytes, meta: Metadata, q: Request)
    requires IsHash(H) && !alg.OtherAlgorithm? && Unambiguous(H, encode, alg, data, meta)
    requires q.expected == FileHash(H, encode, alg, data, meta)
    requires q.count > 0 && LastBlock(q) < NumBlocks(q.size)
    requires CollisionFree(H, encode, alg, data, meta, HashedFrom(H, encode, q, FirstBlock(q)))
    requires VerifyResult(H, encode, q).ok
    ensures SameBlocks(q, data)
    ensures Read(q, FirstBlock(q)) != [] ==> q.size == |data| && q.meta == meta
    ensures q.offset + q.count <= |q.file| ==>
              && q.offset + q.count <= |Padded(data)|
              && VerifyResult(H, encode, q).out == Padded(data)[q.offset..q.offset + q.count]
  {
    hide HashedFrom, CollisionFree, Unambiguous, IsHash, NumBlocks, Verifies, FileHash, VerifyResult, ReadAt, BlockAt;
    hide Padded;
    VerifyDecides(H, encode, q);
    FirstIsInRange(q);
    forall i | FirstBlock(q) <= i <= LastBlock(q) && Read(q, i) != []
      ensures SameBlock(q, data, i) && q.size == |data| && q.meta == meta
    {
      InsideIsFaithful(H, encode, alg, data, meta, q, i);
      assert FaithfulBlock(H, encode, data, meta, q, i);
    }
    VerifyIsSound(H, encode, alg, data, meta, q);
  }

  lemma FirstIsInRange(q: Request)
    requires q.count > 0
    ensures FirstBlock(q) <= LastBlock(q)
  {
  }

  /** A request with the tree, the size and the metadata that Generate was given or
      made. The file is any. */
  predicate TreeUntouched(H: Hash, encode: Encoding, data: Bytes, meta: Metadata, q: Request) {
    && q.tree == Whole(H, q.alg, data, q.sameFile) && q.size == |data| && q.meta == meta
    && q.expected == FileHash(H, encode, q.alg, data, meta)
  }

  /** With its true tree a block of the file verifies. */
  lemma SameBlockVerifies(H: Hash, encode: Encoding, data: Bytes, meta: Metadata, q: Request, i: nat)
    requires IsHash(H) && !q.alg.OtherAlgorithm? && TreeUntouched(H, encode, data, meta, q) && SameBlock(q, data, i)
    ensures Verifies(H, encode, q, i, Read(q, i))
  {
    hide Climb, RootHash, BlockAt, NumBlocks, Whole, ReadAt, ZeroPadded, LayoutOf;
    ClimbIsComplete(H, q.alg, data, q.sameFile, LayoutOf(q.size, q.alg, q.sameFile), 0, i);
  }

  /** With the true tree, Verify of a range succeeds if and only if every block read
      for it is the file's: no change is missed, and nothing else is refused. */
  lemma VerifyIffSame(H: Hash, encode: Encoding, data: Bytes, meta: Metadata, q: Request)
    requires IsHash(H) && !q.alg.OtherAlgorithm? && Unambiguous(H, encode, q.alg, data, meta)
    requires TreeUntouched(H, encode, data, meta, q) && q.count > 0 && LastBlock(q) < NumBlocks(q.size)
    requires CollisionFree(H, encode, q.alg, data, meta, HashedFrom(H, encode, q, FirstBlock(q)))
    ensures VerifyResult(H, encode, q).ok <==> SameBlocks(q, data)
  {
    hide HashedFrom, CollisionFree, Unambiguous, IsHash, NumBlocks, Verifies, FileHash, VerifyResult, ReadAt, Whole;
    hide SameBlock, Padded;
    if VerifyResult(H, encode, q).ok {
      SuccessIsGenuine(H, encode, q.alg, data, meta, q);
    }
    if SameBlocks(q, data) {
      forall i | FirstBlock(q) <= i <= LastBlock(q) && Read(q, i) != [] ensures Verifies(H, encode, q, i, Read(q, i)) {
        SameBlockVerifies(H, encode, data, meta, q, i);
      }
      VerifyDecides(H, encode, q);
    }
  }
}
