/** The two main results on ranges: Verify writes only bytes of the file whose hash
    it is given, and it writes all of them when nothing was changed. */
module MerkleTheorem {
  import opened Words
  import opened MerkleLayout
  import opened MerkleTree
  import opened MerkleVerify

  /** Where the part of block i in the range begins and ends in the file. */
  function From(q: Request, i: nat): nat { if i == FirstBlock(q) then q.offset else i * BLOCK_SIZE }

  function UpTo(q: Request, i: nat): nat
    requires q.count > 0
  {
    if i == LastBlock(q) then q.offset + q.count else (i + 1) * BLOCK_SIZE
  }

  lemma PieceBounds(q: Request, i: nat, bytes: Bytes)
    requires q.count > 0 && FirstBlock(q) <= i <= LastBlock(q) && |bytes| <= BLOCK_SIZE
    ensures i * BLOCK_SIZE <= From(q, i) < UpTo(q, i) <= (i + 1) * BLOCK_SIZE && UpTo(q, i) <= q.offset + q.count
    ensures i < LastBlock(q) ==> UpTo(q, i) == From(q, i + 1)
    ensures Piece(q, i, bytes)
              == bytes[Min(From(q, i) - i * BLOCK_SIZE, |bytes|)..Min(UpTo(q, i) - i * BLOCK_SIZE, |bytes|)]
  {
  }

  lemma BlockInFile(q: Request, i: nat)
    requires q.count > 0 && i <= LastBlock(q) && q.offset + q.count <= q.size
    ensures i < NumBlocks(q.size)
  {
  }

  // ----- soundness -----

  /** Everything that is hashed to verify the blocks from i on. */
  ghost function HashedFrom(H: Hash, encode: Encoding, q: Request, i: nat): set<Bytes>
    requires q.count > 0
    decreases LastBlock(q) + 1 - i
  {
    if i > LastBlock(q) then {}
    else BlockHashes(H, encode, q.alg, q.tree, LayoutOf(q.size, q.alg, q.sameFile), q.meta, q.size,
                     ZeroPadded(ReadAt(q.file, i * BLOCK_SIZE, BLOCK_SIZE)), i)
         + HashedFrom(H, encode, q, i + 1)
  }

  /** Out begins the requested range of the file, which zeros follow up to the end
      of its last block. */
  ghost predicate Genuine(q: Request, data: Bytes, meta: Metadata, out: Bytes) {
    out == [] || (q.size == |data| && q.meta == meta && q.offset + |out| <= |Padded(data)|
                  && out == Padded(data)[q.offset..q.offset + |out|])
  }

  /** A block that is read in part ends the file. */
  lemma ShortReadEnds(H: Hash, encode: Encoding, q: Request, i: nat, out: Bytes, eof: bool)
    requires q.count > 0 && FirstBlock(q) <= i && |ReadAt(q.file, i * BLOCK_SIZE, BLOCK_SIZE)| < BLOCK_SIZE
    ensures VerifyFrom(H, encode, q, i + 1, out, eof).out == out
  {
  }

  lemma SliceOfBlock(data: Bytes, i: nat, bytes: Bytes, lo: nat, hi: nat)
    requires |bytes| <= BLOCK_SIZE && ZeroPadded(bytes) == BlockAt(data, i) && lo <= hi <= |bytes|
    requires i < NumBlocks(|data|)
    ensures i * BLOCK_SIZE + hi <= |Padded(data)|
    ensures bytes[lo..hi] == Padded(data)[i * BLOCK_SIZE + lo..i * BLOCK_SIZE + hi]
  {
    hide Padded, BlockAt, NumBlocks;
    PaddedBlock(data, i);
    var b := BlockAt(data, i);
    forall j | lo <= j < hi ensures bytes[j] == Padded(data)[i * BLOCK_SIZE + j] {
      assert bytes[j] == ZeroPadded(bytes)[j] == b[j];
    }
  }

  lemma SliceOfData(data: Bytes, a: nat, b: nat)
    requires a <= b <= |data|
    ensures b <= |Padded(data)| && Padded(data)[a..b] == data[a..b]
  {
    hide NumBlocks;
    var p := Padded(data);
    forall j | a <= j < b ensures p[j] == data[j] {}
  }

  lemma Extends(data: Bytes, a: nat, b: nat, c: nat)
    requires a <= b <= c <= |data|
    ensures data[a..b] + data[b..c] == data[a..c]
  {
  }

  lemma PieceIsGenuine(q: Request, data: Bytes, meta: Metadata, i: nat, bytes: Bytes, out: Bytes)
    requires q.count > 0 && FirstBlock(q) <= i <= LastBlock(q) && |bytes| <= BLOCK_SIZE && i < NumBlocks(|data|)
    requires q.size == |data| && q.meta == meta && ZeroPadded(bytes) == BlockAt(data, i)
    requires Genuine(q, data, meta, out) && q.offset + |out| == From(q, i)
    ensures Genuine(q, data, meta, out + Piece(q, i, bytes)) && q.offset + |out + Piece(q, i, bytes)| <= UpTo(q, i)
    ensures |bytes| == BLOCK_SIZE ==> q.offset + |out + Piece(q, i, bytes)| == UpTo(q, i)
  {
    hide Piece, FirstBlock, LastBlock, From, UpTo, ZeroPadded, BlockAt, Padded, NumBlocks;
    PieceBounds(q, i, bytes);
    var a := i * BLOCK_SIZE;
    var lo, hi := Min(From(q, i) - a, |bytes|), Min(UpTo(q, i) - a, |bytes|);
    assert Piece(q, i, bytes) == bytes[lo..hi];
    SliceOfBlock(data, i, bytes, lo, hi);
    if lo < hi {
      Extends(Padded(data), q.offset, a + lo, a + hi);
    } else {
      assert out + Piece(q, i, bytes) == out;
    }
  }

  /** If block i of the range verifies, it is block i of the file. */
  ghost predicate FaithfulBlock(H: Hash, encode: Encoding, data: Bytes, meta: Metadata, q: Request, i: nat) {
    var bytes := ReadAt(q.file, i * BLOCK_SIZE, BLOCK_SIZE);
    Verifies(H, encode, q, i, bytes) ==>
      q.size == |data| && q.meta == meta && i < NumBlocks(|data|) && ZeroPadded(bytes) == BlockAt(data, i)
  }

  ghost predicate Faithful(H: Hash, encode: Encoding, data: Bytes, meta: Metadata, q: Request)
    requires q.count > 0
  {
    forall i :: FirstBlock(q) <= i <= LastBlock(q) ==> FaithfulBlock(H, encode, data, meta, q, i)
  }

  /** What is written of blocks that are those of the file. */
  lemma {:induction false} FromIsGenuine(H: Hash, encode: Encoding, data: Bytes, meta: Metadata,
                                         q: Request, i: nat, out: Bytes, eof: bool)
    requires q.count > 0 && FirstBlock(q) <= i <= LastBlock(q) + 1 && Faithful(H, encode, data, meta, q)
    requires Genuine(q, data, meta, out) && |out| <= q.count && (i <= LastBlock(q) ==> q.offset + |out| == From(q, i))
    ensures var r := VerifyFrom(H, encode, q, i, out, eof); Genuine(q, data, meta, r.out) && |r.out| <= q.count
    decreases LastBlock(q) + 1 - i
  {
    hide Genuine, ReadAt, FirstBlock, LastBlock, Piece, From, UpTo, ZeroPadded, Verifies, NumBlocks, BlockAt;
    var bytes := ReadAt(q.file, i * BLOCK_SIZE, BLOCK_SIZE);
    if i <= LastBlock(q) && bytes != [] && Verifies(H, encode, q, i, bytes) {
      assert FaithfulBlock(H, encode, data, meta, q, i);
      var out2 := out + Piece(q, i, bytes);
      PieceIsGenuine(q, data, meta, i, bytes, out);
      PieceBounds(q, i, bytes);
      if |bytes| < BLOCK_SIZE {
        ShortReadEnds(H, encode, q, i, out2, true);
      } else {
        FromIsGenuine(H, encode, data, meta, q, i + 1, out2, false);
      }
    }
  }

  /** What one block hashes is among what all blocks hash. */
  lemma {:induction false} BlockIsHashed(H: Hash, encode: Encoding, q: Request, i: nat, j: nat)
    requires q.count > 0 && j <= i <= LastBlock(q)
    ensures BlockHashes(H, encode, q.alg, q.tree, LayoutOf(q.size, q.alg, q.sameFile), q.meta, q.size,
                        ZeroPadded(ReadAt(q.file, i * BLOCK_SIZE, BLOCK_SIZE)), i) <= HashedFrom(H, encode, q, j)
    decreases i - j
  {
    hide BlockHashes, ReadAt, ZeroPadded, LayoutOf;
    if j < i { BlockIsHashed(H, encode, q, i, j + 1); }
  }

  /** Blocks inside the declared size, rounded up to full blocks. */
  lemma InsideIsFaithful(H: Hash, encode: Encoding, alg: Algorithm, data: Bytes, meta: Metadata, q: Request, i: nat)
    requires IsHash(H) && !alg.OtherAlgorithm? && !q.alg.OtherAlgorithm? && Unambiguous(H, encode, alg, data, meta)
    requires q.expected == FileHash(H, encode, alg, data, meta)
    requires q.count > 0 && FirstBlock(q) <= i <= LastBlock(q) && i < NumBlocks(q.size)
    requires CollisionFree(H, encode, alg, data, meta, HashedFrom(H, encode, q, FirstBlock(q)))
    ensures FaithfulBlock(H, encode, data, meta, q, i)
  {
    hide ReadAt, FirstBlock, LastBlock, ZeroPadded, FileHash, BlockVerifies, HashedFrom, CollisionFree, BlockHashes;
    hide Unambiguous, IsHash, LayoutOf, NumBlocks, BlockAt;
    var bytes, layout := ReadAt(q.file, i * BLOCK_SIZE, BLOCK_SIZE), LayoutOf(q.size, q.alg, q.sameFile);
    var xs := BlockHashes(H, encode, q.alg, q.tree, layout, q.meta, q.size, ZeroPadded(bytes), i);
    BlockIsHashed(H, encode, q, i, FirstBlock(q));
    SubsetCollisionFree(H, encode, alg, data, meta, HashedFrom(H, encode, q, FirstBlock(q)), xs);
    if Verifies(H, encode, q, i, bytes) {
      BlockIsGenuine(H, encode, alg, data, meta, q.alg, q.tree, layout, q.sameFile, q.meta, q.size,
                     ZeroPadded(bytes), i);
    }
  }

  /** Soundness. For every file, every tree file and every range that ends in the
      last block of the declared size or before: what Verify writes, whether it
      succeeds or not, is a prefix of that range of the file whose hash it was
      given. The hash function is free of collisions between what Generate and
      what this Verify hash. */
  lemma VerifyIsSound(H: Hash, encode: Encoding, alg: Algorithm, data: Bytes, meta: Metadata, q: Request)
    requires IsHash(H) && !alg.OtherAlgorithm? && Unambiguous(H, encode, alg, data, meta)
    requires q.expected == FileHash(H, encode, alg, data, meta)
    requires q.count > 0 ==> LastBlock(q) < NumBlocks(q.size)
    requires q.count > 0 ==> CollisionFree(H, encode, alg, data, meta, HashedFrom(H, encode, q, FirstBlock(q)))
    ensures var out := VerifyResult(H, encode, q).out;
            && |out| <= (if q.count < 0 then 0 else q.count) && Genuine(q, data, meta, out)
            && (q.offset + |out| <= |data| ==> out == data[q.offset..q.offset + |out|])
  {
    hide HashedFrom, CollisionFree, Unambiguous, IsHash, FaithfulBlock, NumBlocks;
    var out := VerifyResult(H, encode, q).out;
    if q.count > 0 && !q.alg.OtherAlgorithm? {
      forall i | FirstBlock(q) <= i <= LastBlock(q) ensures FaithfulBlock(H, encode, data, meta, q, i) {
        InsideIsFaithful(H, encode, alg, data, meta, q, i);
      }
      FromIsGenuine(H, encode, data, meta, q, FirstBlock(q), [], false);
    }
    if q.offset + |out| <= |data| {
      GenuineData(q, data, meta, out);
    }
  }

  /** Of a range inside the file, only bytes of the file are written. */
  lemma GenuineData(q: Request, data: Bytes, meta: Metadata, out: Bytes)
    requires Genuine(q, data, meta, out) && q.offset + |out| <= |data|
    ensures out == data[q.offset..q.offset + |out|]
  {
    hide Padded;
    SliceOfData(data, q.offset, q.offset + |out|);
  }

  /** Soundness of the check of the metadata alone. */
  lemma MetadataIsSound(H: Hash, encode: Encoding, alg: Algorithm, data: Bytes, meta: Metadata, q: Request)
    requires IsHash(H) && !alg.OtherAlgorithm? && Unambiguous(H, encode, alg, data, meta)
    requires q.expected == FileHash(H, encode, alg, data, meta) && q.count == 0 && VerifyResult(H, encode, q).ok
    requires CollisionFree(H, encode, alg, data, meta, {encode(StoredDescriptor(q).value)})
    ensures q.alg == alg && q.meta == meta && q.size == |data|
  {
    SameDescriptor(H, encode, alg, data, meta, q.alg, StoredDescriptor(q).value);
  }

  // ----- completeness -----

  /** A request for a range of a file that nobody has touched since Generate. */
  predicate Untouched(H: Hash, encode: Encoding, data: Bytes, meta: Metadata, q: Request) {
    && q.tree == Whole(H, q.alg, data, q.sameFile)
    && q.file == (if q.sameFile then q.tree else data)
    && q.size == |data| && q.meta == meta && q.expected == FileHash(H, encode, q.alg, data, meta)
  }

  /** The untouched file gives each block as Generate read it. */
  lemma UntouchedBlock(H: Hash, encode: Encoding, data: Bytes, meta: Metadata, q: Request, i: nat)
    requires Untouched(H, encode, data, meta, q) && i < NumBlocks(|data|)
    ensures var bytes := ReadAt(q.file, i * BLOCK_SIZE, BLOCK_SIZE);
            bytes != [] && ZeroPadded(bytes) == BlockAt(data, i) && Min(BLOCK_SIZE, |data| - i * BLOCK_SIZE) <= |bytes|
  {
    hide TreeFile, RootHash, BlockAt, Written, Level, Levels, FileHash;
    var root := Height(|data|, q.alg) - 1;
    var more := Written(H, q.alg, data, root) + Level(H, q.alg, data, root);
    if q.sameFile {
      TreeAtRoot(H, q.alg, data, true);
      Associative(Padded(data), Written(H, q.alg, data, root), Level(H, q.alg, data, root));
      assert q.file == Padded(data) + more;
    }
    ReadsData(data, q.sameFile, i, more);
  }

  /** Every block of the untouched file verifies. */
  lemma UntouchedVerifies(H: Hash, encode: Encoding, data: Bytes, meta: Metadata, q: Request, i: nat)
    requires IsHash(H) && Untouched(H, encode, data, meta, q) && i < NumBlocks(|data|)
    ensures Verifies(H, encode, q, i, ReadAt(q.file, i * BLOCK_SIZE, BLOCK_SIZE))
  {
    hide Climb, RootHash, BlockAt, NumBlocks, Whole, ReadAt, ZeroPadded, LayoutOf;
    var layout := LayoutOf(q.size, q.alg, q.sameFile);
    UntouchedBlock(H, encode, data, meta, q, i);
    ClimbIsComplete(H, q.alg, data, q.sameFile, layout, 0, i);
  }

  /** Its part of the range is all there. */
  lemma UntouchedPiece(q: Request, data: Bytes, i: nat, bytes: Bytes)
    requires q.count > 0 && FirstBlock(q) <= i <= LastBlock(q) && q.offset + q.count <= q.size == |data|
    requires |bytes| <= BLOCK_SIZE && ZeroPadded(bytes) == BlockAt(data, i) && i * BLOCK_SIZE <= |data|
    requires Min(BLOCK_SIZE, |data| - i * BLOCK_SIZE) <= |bytes|
    ensures From(q, i) <= UpTo(q, i) <= |data| && Piece(q, i, bytes) == data[From(q, i)..UpTo(q, i)]
  {
    hide Piece, FirstBlock, LastBlock, From, UpTo, ZeroPadded, BlockAt;
    PieceBounds(q, i, bytes);
    BlockInFile(q, i);
    var a := i * BLOCK_SIZE;
    SliceOfBlock(data, i, bytes, From(q, i) - a, UpTo(q, i) - a);
    SliceOfData(data, From(q, i), UpTo(q, i));
  }

  lemma {:induction false} FromIsComplete(H: Hash, encode: Encoding, data: Bytes, meta: Metadata, q: Request, i: nat,
                                          out: Bytes, eof: bool)
    requires IsHash(H) && !q.alg.OtherAlgorithm? && Untouched(H, encode, data, meta, q)
    requires q.count > 0 && q.offset + q.count <= |data| && FirstBlock(q) <= i <= LastBlock(q)
    requires q.offset <= From(q, i) <= |data| && out == data[q.offset..From(q, i)]
    ensures var r := VerifyFrom(H, encode, q, i, out, eof); r.ok && r.out == data[q.offset..q.offset + q.count]
    decreases LastBlock(q) - i
  {
    hide ReadAt, FirstBlock, LastBlock, Piece, From, UpTo, ZeroPadded, BlockAt, Verifies, NumBlocks, IsHash, Whole;
    var bytes := ReadAt(q.file, i * BLOCK_SIZE, BLOCK_SIZE);
    BlockInFile(q, i);
    PieceBounds(q, i, bytes);
    UntouchedBlock(H, encode, data, meta, q, i);
    UntouchedVerifies(H, encode, data, meta, q, i);
    hide Untouched;
    UntouchedPiece(q, data, i, bytes);
    var out2 := out + Piece(q, i, bytes);
    Extends(data, q.offset, From(q, i), UpTo(q, i));
    if i < LastBlock(q) {
      FromIsComplete(H, encode, data, meta, q, i + 1, out2, |bytes| < BLOCK_SIZE);
    } else {
      LastPiece(q, i);
    }
  }

  lemma LastPiece(q: Request, i: nat)
    requires q.count > 0 && i == LastBlock(q)
    ensures UpTo(q, i) == q.offset + q.count
  {
  }

  /** Completeness. For every file, both algorithms and both ways to store the
      tree: on the untouched file Verify accepts every range inside the file and
      writes exactly that range. */
  lemma VerifyIsComplete(H: Hash, encode: Encoding, data: Bytes, meta: Metadata, q: Request)
    requires IsHash(H) && !q.alg.OtherAlgorithm? && Untouched(H, encode, data, meta, q)
    requires q.count >= 0 && q.offset + q.count <= |data|
    ensures var r := VerifyResult(H, encode, q); r.ok && r.out == data[q.offset..q.offset + q.count]
  {
    hide RootHash, NumBlocks, Whole, LevelOffset, VerifyFrom;
    if q.count > 0 {
      PieceBounds(q, FirstBlock(q), []);
      FromIsComplete(H, encode, data, meta, q, FirstBlock(q), [], false);
    } else {
      MetadataIsComplete(H, encode, data, meta, q);
    }
  }

  lemma MetadataIsComplete(H: Hash, encode: Encoding, data: Bytes, meta: Metadata, q: Request)
    requires IsHash(H) && !q.alg.OtherAlgorithm? && Untouched(H, encode, data, meta, q)
    ensures MetadataVerifies(H, encode, q)
  {
    hide RootHash, NumBlocks, Whole, LevelOffset, ReadAt, Levels, Digests;
    var layout := LayoutOf(q.size, q.alg, q.sameFile);
    var k := |layout.levelOffset| - 1;
    OneRoot(NumBlocks(|data|), q.alg, k);
    NoBlocks(|data|);
    if |data| == 0 {
      EmptyRootHash(H, q.alg, data);
    } else {
      RootIsDigest(H, q.alg, data, k);
      RootReadsBack(H, q.alg, data, q.sameFile, k, layout);
    }
  }

  lemma NoBlocks(size: nat)
    ensures NumBlocks(size) == 0 <==> size == 0
  {
  }

  lemma EmptyRootHash(H: Hash, alg: Algorithm, data: Bytes)
    requires data == [] && IsHash(H)
    ensures RootHash(H, alg, data) == []
  {
    EmptyRoot(H, alg, data, 0);
  }
}
