/** Ranges outside the declared size of a file. Block i of such a range can only
    verify if it repeats a block of the file, and exactly from which i on a tree
    file can be made that lets a repeated block through. */
module MerkleOutside {
  import opened Words
  import opened MerkleLayout
  import opened MerkleTree
  import opened MerkleVerify
  import opened MerkleTheorem

  // ----- indices from level to level -----

  function Pow(h: nat, e: nat): (r: nat)
    requires h > 0
    ensures r > 0
  {
    if e == 0 then 1 else h * Pow(h, e - 1)
  }

  lemma MulSign(b: nat, d: int)
    requires b > 0
    ensures (d >= 1 ==> b * d >= b) && (d <= -1 ==> b * d + b <= 0)
  {
  }

  lemma MulCancel(h: nat, u: nat, p: nat)
    requires h * u < h * p
    ensures u < p
  {
    if p <= u { MulMonotone(p, u, h); }
  }

  lemma DivModUnique(a: nat, b: nat, q: nat, r: nat)
    requires b > 0 && a == b * q + r && r < b
    ensures a / b == q && a % b == r
  {
    var d := a / b - q;
    assert a == b * (a / b) + a % b;
    assert b * d == r - a % b;
    MulSign(b, d);
  }

  lemma DivMod(a: nat, b: nat)
    requires b > 0
    ensures a == b * (a / b) + a % b && a % b < b
  {
  }

  lemma SmallMod(i: nat, c: nat)
    requires i < c
    ensures i % c == i
  {
  }

  lemma Regroup(h: nat, p: nat, q: nat, u: nat, v: nat)
    ensures (h * p) * q + (h * u + v) == h * (p * q + u) + v
  {
    assert (h * p) * q == h * (p * q);
  }

  /** One level up divides the index and leaves the place in the block. */
  lemma FoldParts(x: nat, h: nat, p: nat, b: nat, q: nat, s: nat, u: nat, v: nat)
    requires h > 0 && p > 0 && b == h * p && x == b * q + s && s < b && s == h * u + v && v < h
    ensures s / h == (x / h) % p && s % h == x % h && q == (x / h) / p
  {
    MulCancel(h, u, p);
    Regroup(h, p, q, u, v);
    DivModUnique(s, h, u, v);
    DivModUnique(x, h, p * q + u, v);
    DivModUnique(p * q + u, p, q, u);
  }

  lemma FoldUp(x: nat, h: nat, p: nat)
    requires h > 0 && p > 0
    ensures h * p > 0 && (x % (h * p)) / h == (x / h) % p && (x % (h * p)) % h == x % h && x / (h * p) == (x / h) / p
  {
    var b := h * p;
    MulSign(h, p);
    DivMod(x, b);
    DivMod(x % b, h);
    FoldParts(x, h, p, b, x / b, x % b, x % b / h, x % b % h);
  }

  /** The blocks a tree of this height has room for. */
  function Capacity(size: nat, alg: Algorithm): (r: nat)
    ensures r > 0
  {
    Pow(HashesPerBlock(alg), Height(size, alg) - 1)
  }

  lemma BlocksAbove(n: nat, alg: Algorithm, k: nat)
    ensures Digests(n, alg, k) <= HashesPerBlock(alg) * Digests(n, alg, k + 1)
  {
    var m := Digests(n, alg, k);
    assert Digests(n, alg, k + 1) == Ceil(m, HashesPerBlock(alg));
    if alg.Sha512? { assert HashesPerBlock(alg) == 64; } else { assert HashesPerBlock(alg) == 128; }
  }

  /** Every level fits below the root. */
  lemma {:induction false} DigestsFit(n: nat, alg: Algorithm, k: nat)
    requires k < Levels(n, alg)
    ensures Digests(n, alg, k) <= Pow(HashesPerBlock(alg), Levels(n, alg) - 1 - k)
    decreases Levels(n, alg) - k
  {
    hide Digests, Levels;
    var e, h := Levels(n, alg) - 1 - k, HashesPerBlock(alg);
    OneRoot(n, alg, k);
    if e > 0 {
      DigestsFit(n, alg, k + 1);
      BlocksAbove(n, alg, k);
      MulMonotone(Digests(n, alg, k + 1), Pow(h, e - 1), h);
    }
  }

  // ----- what a climb from anywhere ends in -----

  /** No string of xs has the all-zero digest, which fills up the blocks of the tree. */
  ghost predicate ZeroFree(H: Hash, alg: Algorithm, xs: set<Bytes>) {
    forall x :: x in xs ==> H(alg, x) != Zeros(DigestSize(alg))
  }

  lemma SubsetZeroFree(H: Hash, alg: Algorithm, xs: set<Bytes>, ys: set<Bytes>)
    requires ZeroFree(H, alg, xs) && ys <= xs
    ensures ZeroFree(H, alg, ys)
  {
  }

  lemma NoZeroDigest(H: Hash, alg: Algorithm, xs: set<Bytes>, x: Bytes)
    requires ZeroFree(H, alg, xs) && x in xs
    ensures H(alg, x) != Zeros(DigestSize(alg))
  {
  }

  lemma SameByHash(H: Hash, encode: Encoding, alg: Algorithm, data: Bytes, meta: Metadata, xs: set<Bytes>, x: Bytes,
                   k: nat, j: nat)
    requires CollisionFree(H, encode, alg, data, meta, xs) && x in xs
    requires k < Height(|data|, alg) && j < Digests(NumBlocks(|data|), alg, k)
    requires H(alg, x) == H(alg, BlockAt(Below(H, alg, data, k), j))
    ensures x == BlockAt(Below(H, alg, data, k), j)
  {
    hide BlockAt, Below, NumBlocks, Digests, Levels;
    assert Generated(H, encode, alg, data, meta, BlockAt(Below(H, alg, data, k), j));
  }

  lemma ClimbedParts(H: Hash, alg: Algorithm, tree: Bytes, layout: Layout, k: nat, index: nat, block: Bytes)
    requires k < |layout.levelOffset|
    ensures block in Climbed(H, alg, tree, layout, k, index, block)
    ensures k + 1 < |layout.levelOffset| ==>
              Climbed(H, alg, tree, layout, k + 1, index / HashesPerBlock(alg),
                      ReadAt(tree, BlockOffset(layout, k, index / HashesPerBlock(alg)), BLOCK_SIZE))
              <= Climbed(H, alg, tree, layout, k, index, block)
  {
  }

  lemma LastClimb(H: Hash, alg: Algorithm, tree: Bytes, layout: Layout, k: nat, index: nat, block: Bytes)
    requires k + 1 == |layout.levelOffset| && Climb(H, alg, tree, layout, k, index, block).Some?
    ensures Climb(H, alg, tree, layout, k, index, block) == Some(H(alg, block))
  {
  }

  lemma ZeroTail(s: Bytes, q: nat, off: nat, d: nat)
    requires |s| <= q * BLOCK_SIZE + off && off + d <= BLOCK_SIZE
    ensures BlockAt(s, q)[off..off + d] == Zeros(d)
  {
    var r := ReadAt(s, q * BLOCK_SIZE, BLOCK_SIZE);
    assert |r| <= off;
    forall j | off <= j < off + d ensures BlockAt(s, q)[j] == 0 {}
  }

  /** Behind the last digest of a level there are zeros. */
  lemma ZeroSlot(H: Hash, alg: Algorithm, data: Bytes, k: nat, j: nat)
    requires IsHash(H) && j >= Digests(NumBlocks(|data|), alg, k)
    ensures var h, d := HashesPerBlock(alg), DigestSize(alg);
            && (j % h) * d + d <= BLOCK_SIZE
            && BlockAt(Below(H, alg, data, k + 1), j / h)[(j % h) * d..(j % h) * d + d] == Zeros(d)
  {
    hide Below, Digests, NumBlocks, BlockAt, HashesPerBlock, DigestSize, HashBlocks;
    var h, d, n := HashesPerBlock(alg), DigestSize(alg), Digests(NumBlocks(|data|), alg, k);
    DigestInBlock(alg, j);
    BelowNext(H, alg, data, k);
    HashBlocksLength(H, alg, Below(H, alg, data, k), n);
    MulMonotone(n, j, d);
    ZeroTail(Below(H, alg, data, k + 1), j / h, (j % h) * d, d);
  }

  /** The digest of a block that verifies stands in the block above it. */
  lemma StoredDigest(H: Hash, alg: Algorithm, tree: Bytes, layout: Layout, k: nat, index: nat, block: Bytes)
    requires k + 1 < |layout.levelOffset| && Climb(H, alg, tree, layout, k, index, block).Some? && IsHash(H)
    requires layout.digestSize == DigestSize(alg)
    ensures var h, d := HashesPerBlock(alg), DigestSize(alg);
            var parent := ReadAt(tree, BlockOffset(layout, k, index / h), BLOCK_SIZE);
            && |parent| == BLOCK_SIZE && (index % h) * d + d <= BLOCK_SIZE
            && parent[(index % h) * d..(index % h) * d + d] == H(alg, block)
            && Climb(H, alg, tree, layout, k, index, block) == Climb(H, alg, tree, layout, k + 1, index / h, parent)
  {
    var h, d := HashesPerBlock(alg), DigestSize(alg);
    var a := BlockOffset(layout, k, index / h);
    DigestInBlock(alg, index);
    assert DigestOffset(layout, k, index) == a + (index % h) * d;
    assert |ReadAt(tree, a, BLOCK_SIZE)| == BLOCK_SIZE;
    assert a + BLOCK_SIZE <= |tree|;
    ReadWithin(tree, a, BLOCK_SIZE, (index % h) * d, d);
  }

  /** Whatever the tree file holds, a climb to the true root from any index began
      with a true block: the one at the index, wrapped to the tree's capacity. */
  lemma {:induction false} ClimbFolds(H: Hash, encode: Encoding, alg: Algorithm, data: Bytes, meta: Metadata,
                                      sameFile: bool, tree: Bytes, layout: Layout, k: nat, index: nat, block: Bytes)
    requires IsHash(H) && Describes(layout, |data|, alg, sameFile) && k < |layout.levelOffset| && NumBlocks(|data|) > 0
    requires Climb(H, alg, tree, layout, k, index, block) == Some(RootHash(H, alg, data))
    requires CollisionFree(H, encode, alg, data, meta, Climbed(H, alg, tree, layout, k, index, block))
    requires ZeroFree(H, alg, Climbed(H, alg, tree, layout, k, index, block))
    ensures var j := index % Pow(HashesPerBlock(alg), |layout.levelOffset| - 1 - k);
            j < Digests(NumBlocks(|data|), alg, k) && block == BlockAt(Below(H, alg, data, k), j)
    decreases |layout.levelOffset| - k
  {
    hide RootHash, Below, BlockAt, NumBlocks, LevelOffset, ReadAt, HashesPerBlock, DigestSize, Digests, Levels;
    hide Climb, Climbed, CollisionFree, ZeroFree, BlockOffset;
    var n, h, e := NumBlocks(|data|), HashesPerBlock(alg), |layout.levelOffset| - 1 - k;
    var j, xs := index % Pow(h, e), Climbed(H, alg, tree, layout, k, index, block);
    OneRoot(n, alg, k);
    ClimbedParts(H, alg, tree, layout, k, index, block);
    if e == 0 {
      assert j == 0;
      LastClimb(H, alg, tree, layout, k, index, block);
      RootIsDigest(H, alg, data, k);
      SameByHash(H, encode, alg, data, meta, xs, block, k, 0);
    } else {
      var parent := ReadAt(tree, BlockOffset(layout, k, index / h), BLOCK_SIZE);
      StoredDigest(H, alg, tree, layout, k, index, block);
      SubsetCollisionFree(H, encode, alg, data, meta, xs, Climbed(H, alg, tree, layout, k + 1, index / h, parent));
      SubsetZeroFree(H, alg, xs, Climbed(H, alg, tree, layout, k + 1, index / h, parent));
      ClimbFolds(H, encode, alg, data, meta, sameFile, tree, layout, k + 1, index / h, parent);
      FoldUp(index, h, Pow(h, e - 1));
      NoZeroDigest(H, alg, xs, block);
      if j < Digests(n, alg, k) {
        DigestInParent(H, alg, data, k, j);
        SameByHash(H, encode, alg, data, meta, xs, block, k, j);
      } else {
        ZeroSlot(H, alg, data, k, j);
      }
    }
  }

  lemma EmptyHasNoDigest(H: Hash, alg: Algorithm, data: Bytes, tree: Bytes, layout: Layout, index: nat, block: Bytes)
    requires IsHash(H) && |layout.levelOffset| > 0
    requires Climb(H, alg, tree, layout, 0, index, block) == Some(RootHash(H, alg, data))
    ensures NumBlocks(|data|) > 0
  {
    ClimbEndsInDigest(H, alg, tree, layout, 0, index, block);
    if |data| == 0 { EmptyRootHash(H, alg, data); }
  }

  lemma {:induction false} ClimbEndsInDigest(H: Hash, alg: Algorithm, tree: Bytes, layout: Layout, k: nat, index: nat,
                                             block: Bytes)
    requires IsHash(H) && k < |layout.levelOffset| && Climb(H, alg, tree, layout, k, index, block).Some?
    ensures |Climb(H, alg, tree, layout, k, index, block).value| == DigestSize(alg)
    decreases |layout.levelOffset| - k
  {
    hide ReadAt;
    if k + 1 < |layout.levelOffset| {
      var x := index / HashesPerBlock(alg);
      ClimbEndsInDigest(H, alg, tree, layout, k + 1, x, ReadAt(tree, BlockOffset(layout, k, x), BLOCK_SIZE));
    }
  }

  /** For a block of any index: what verifies is a block of the file. */
  lemma BlockFolds(H: Hash, encode: Encoding, alg: Algorithm, data: Bytes, meta: Metadata,
                   alg2: Algorithm, tree: Bytes, layout: Layout, sameFile: bool,
                   meta2: Metadata, size: nat, block: Bytes, index: nat)
    requires IsHash(H) && !alg.OtherAlgorithm? && !alg2.OtherAlgorithm? && Unambiguous(H, encode, alg, data, meta)
    requires Describes(layout, size, alg2, sameFile)
    requires BlockVerifies(H, encode, alg2, tree, layout, meta2, size, block, index,
                           FileHash(H, encode, alg, data, meta))
    requires CollisionFree(H, encode, alg, data, meta,
                           BlockHashes(H, encode, alg2, tree, layout, meta2, size, block, index))
    requires ZeroFree(H, alg2, BlockHashes(H, encode, alg2, tree, layout, meta2, size, block, index))
    ensures alg2 == alg && size == |data| && meta2 == meta
    ensures var j := index % Capacity(size, alg); j < NumBlocks(size) && block == BlockAt(data, j)
  {
    var root := Climb(H, alg2, tree, layout, 0, index, block).value;
    var d := Descriptor(meta2, size, root);
    var xs := BlockHashes(H, encode, alg2, tree, layout, meta2, size, block, index);
    SubsetCollisionFree(H, encode, alg, data, meta, xs, {encode(d)});
    SubsetCollisionFree(H, encode, alg, data, meta, xs, Climbed(H, alg2, tree, layout, 0, index, block));
    hide CollisionFree, Climb, Climbed, RootHash, NumBlocks;
    SameDescriptor(H, encode, alg, data, meta, alg2, d);
    EmptyHasNoDigest(H, alg, data, tree, layout, index, block);
    ClimbFolds(H, encode, alg, data, meta, sameFile, tree, layout, 0, index, block);
  }

  lemma RoomIsFaithful(H: Hash, encode: Encoding, alg: Algorithm, data: Bytes, meta: Metadata, q: Request, i: nat)
    requires IsHash(H) && !alg.OtherAlgorithm? && !q.alg.OtherAlgorithm? && Unambiguous(H, encode, alg, data, meta)
    requires q.expected == FileHash(H, encode, alg, data, meta)
    requires q.count > 0 && FirstBlock(q) <= i <= LastBlock(q) && i < Capacity(q.size, q.alg)
    requires CollisionFree(H, encode, alg, data, meta, HashedFrom(H, encode, q, FirstBlock(q)))
    requires ZeroFree(H, q.alg, HashedFrom(H, encode, q, FirstBlock(q)))
    ensures FaithfulBlock(H, encode, data, meta, q, i)
  {
    hide ReadAt, FirstBlock, LastBlock, ZeroPadded, FileHash, BlockVerifies, HashedFrom, CollisionFree, BlockHashes;
    hide Unambiguous, IsHash, LayoutOf, NumBlocks, BlockAt, Capacity, ZeroFree;
    var bytes, layout := ReadAt(q.file, i * BLOCK_SIZE, BLOCK_SIZE), LayoutOf(q.size, q.alg, q.sameFile);
    var xs := BlockHashes(H, encode, q.alg, q.tree, layout, q.meta, q.size, ZeroPadded(bytes), i);
    BlockIsHashed(H, encode, q, i, FirstBlock(q));
    SubsetCollisionFree(H, encode, alg, data, meta, HashedFrom(H, encode, q, FirstBlock(q)), xs);
    SubsetZeroFree(H, q.alg, HashedFrom(H, encode, q, FirstBlock(q)), xs);
    if Verifies(H, encode, q, i, bytes) {
      BlockFolds(H, encode, alg, data, meta, q.alg, q.tree, layout, q.sameFile, q.meta, q.size, ZeroPadded(bytes), i);
      SmallMod(i, Capacity(q.size, q.alg));
    }
  }

  /** Soundness for ranges that the tree has room for, even if they lie behind the
      declared size: nothing there verifies, unless its digest is all zeros. */
  lemma VerifyIsSoundInRoom(H: Hash, encode: Encoding, alg: Algorithm, data: Bytes, meta: Metadata, q: Request)
    requires IsHash(H) && !alg.OtherAlgorithm? && Unambiguous(H, encode, alg, data, meta)
    requires q.expected == FileHash(H, encode, alg, data, meta) && q.count > 0
    requires LastBlock(q) < Capacity(q.size, q.alg)
    requires CollisionFree(H, encode, alg, data, meta, HashedFrom(H, encode, q, FirstBlock(q)))
    requires ZeroFree(H, q.alg, HashedFrom(H, encode, q, FirstBlock(q)))
    ensures Genuine(q, data, meta, VerifyResult(H, encode, q).out)
  {
    hide HashedFrom, CollisionFree, Unambiguous, IsHash, FaithfulBlock, NumBlocks, ZeroFree, Capacity;
    if !q.alg.OtherAlgorithm? {
      forall i | FirstBlock(q) <= i <= LastBlock(q) ensures FaithfulBlock(H, encode, data, meta, q, i) {
        RoomIsFaithful(H, encode, alg, data, meta, q, i);
      }
      FromIsGenuine(H, encode, data, meta, q, FirstBlock(q), [], false);
    }
  }

  /** The first capacity behind the room: there, the top block of digests and the
      place of the root hash overlap, so that a block verifies only if the second
      digest of the top block happens to be the root hash. */
  lemma {:induction false} FirstRepeat(H: Hash, encode: Encoding, alg: Algorithm, data: Bytes, meta: Metadata,
                                       sameFile: bool, tree: Bytes, layout: Layout, k: nat, index: nat, block: Bytes)
    requires IsHash(H) && Describes(layout, |data|, alg, sameFile) && k + 1 < |layout.levelOffset|
    requires index / Pow(HashesPerBlock(alg), |layout.levelOffset| - 1 - k) == 1
    requires Climb(H, alg, tree, layout, k, index, block) == Some(RootHash(H, alg, data))
    requires CollisionFree(H, encode, alg, data, meta, Climbed(H, alg, tree, layout, k, index, block))
    ensures BlockAt(Below(H, alg, data, |layout.levelOffset| - 1), 0)[DigestSize(alg)..2 * DigestSize(alg)]
              == RootHash(H, alg, data)
    decreases |layout.levelOffset| - k
  {
    hide RootHash, Below, BlockAt, NumBlocks, LevelOffset, ReadAt, HashesPerBlock, DigestSize, Digests, Levels;
    var r, h := |layout.levelOffset| - 1, HashesPerBlock(alg);
    var parent := ReadAt(tree, BlockOffset(layout, k, index / h), BLOCK_SIZE);
    StoredDigest(H, alg, tree, layout, k, index, block);
    SubsetCollisionFree(H, encode, alg, data, meta, Climbed(H, alg, tree, layout, k, index, block),
                        Climbed(H, alg, tree, layout, k + 1, index / h, parent));
    FoldUp(index, h, Pow(h, r - k - 1));
    if k + 1 < r {
      FirstRepeat(H, encode, alg, data, meta, sameFile, tree, layout, k + 1, index / h, parent);
    } else {
      assert index / h == 1;
      TopOverlaps(H, encode, alg, data, meta, sameFile, tree, layout, parent);
    }
  }

  lemma TopOverlaps(H: Hash, encode: Encoding, alg: Algorithm, data: Bytes, meta: Metadata,
                    sameFile: bool, tree: Bytes, layout: Layout, parent: Bytes)
    requires IsHash(H) && Describes(layout, |data|, alg, sameFile) && |layout.levelOffset| > 1
    requires var r := |layout.levelOffset| - 1;
             && parent == ReadAt(tree, BlockOffset(layout, r - 1, 1), BLOCK_SIZE) && |parent| == BLOCK_SIZE
             && Climb(H, alg, tree, layout, r, 1, parent) == Some(RootHash(H, alg, data))
    requires CollisionFree(H, encode, alg, data, meta, {parent})
    ensures BlockAt(Below(H, alg, data, |layout.levelOffset| - 1), 0)[DigestSize(alg)..2 * DigestSize(alg)]
              == RootHash(H, alg, data)
  {
    hide RootHash, Below, BlockAt, NumBlocks, LevelOffset, ReadAt, Levels;
    var r, d, n := |layout.levelOffset| - 1, DigestSize(alg), NumBlocks(|data|);
    var truth := BlockAt(Below(H, alg, data, r), 0);
    OneRoot(n, alg, r - 1);
    OneRoot(n, alg, r);
    RootDistance(|data|, alg, sameFile, r);
    RootIsDigest(H, alg, data, r);
    assert Generated(H, encode, alg, data, meta, truth);
    assert parent in {parent};
    assert BlockOffset(layout, r - 1, 1) == layout.levelOffset[r];
    assert DigestOffset(layout, r, 1) == layout.levelOffset[r] + d;
    assert ReadAt(tree, layout.levelOffset[r] + d, d) == H(alg, parent);
    FullRead(tree, layout.levelOffset[r], BLOCK_SIZE);
    ReadWithin(tree, layout.levelOffset[r], BLOCK_SIZE, d, d);
  }

  lemma FullRead(s: Bytes, a: nat, n: nat)
    requires |ReadAt(s, a, n)| == n > 0
    ensures a + n <= |s|
  {
  }

  lemma RootDistance(size: nat, alg: Algorithm, sameFile: bool, r: nat)
    requires r > 0 && Digests(NumBlocks(size), alg, r) == 1
    ensures LevelOffset(size, alg, sameFile, r) == LevelOffset(size, alg, sameFile, r - 1) + BLOCK_SIZE
  {
  }

  // ----- a tree file that lets a repeated block through -----

  /** The index on level k of the block that repeats j in turn m. */
  function Repeat(alg: Algorithm, r: nat, k: nat, m: nat, j: nat): nat
    requires k <= r
  {
    m * Pow(HashesPerBlock(alg), r - k) + j
  }

  lemma RepeatUp(alg: Algorithm, r: nat, k: nat, m: nat, j: nat)
    requires k < r
    ensures var h := HashesPerBlock(alg);
            Repeat(alg, r, k, m, j) / h == Repeat(alg, r, k + 1, m, j / h) && Repeat(alg, r, k, m, j) % h == j % h
  {
    var h, p := HashesPerBlock(alg), Pow(HashesPerBlock(alg), r - k - 1);
    assert m * (h * p) == h * (m * p);
    assert Repeat(alg, r, k, m, j) == h * (m * p + j / h) + j % h;
    DivModUnique(Repeat(alg, r, k, m, j), h, m * p + j / h, j % h);
  }

  /** What a tree reads stays when bytes follow it. */
  lemma ReadPrefix(s: Bytes, more: Bytes, a: nat, n: nat)
    requires |ReadAt(s, a, n)| == n > 0
    ensures ReadAt(s + more, a, n) == ReadAt(s, a, n)
  {
  }

  lemma {:induction false} ClimbPrefix(H: Hash, alg: Algorithm, tree: Bytes, more: Bytes, layout: Layout, k: nat,
                                       index: nat, block: Bytes)
    requires IsHash(H) && k < |layout.levelOffset| && Climb(H, alg, tree, layout, k, index, block).Some?
    ensures Climb(H, alg, tree + more, layout, k, index, block) == Climb(H, alg, tree, layout, k, index, block)
    decreases |layout.levelOffset| - k
  {
    hide ReadAt, DigestOffset, BlockOffset;
    ReadPrefix(tree, more, DigestOffset(layout, k, index), DigestSize(alg));
    if k + 1 < |layout.levelOffset| {
      var x := index / HashesPerBlock(alg);
      var parent := ReadAt(tree, BlockOffset(layout, k, x), BLOCK_SIZE);
      ReadPrefix(tree, more, BlockOffset(layout, k, x), BLOCK_SIZE);
      ClimbPrefix(H, alg, tree, more, layout, k + 1, x, parent);
    }
  }

  /** Where the tree may end once level k is in place, in blocks. */
  function EndBlock(alg: Algorithm, r: nat, k: nat, m: nat, j: nat): nat
    requires k <= r
  {
    1 + (if k == r then m / HashesPerBlock(alg) else Repeat(alg, r, k + 1, m, j / HashesPerBlock(alg)))
  }

  /** From the second turn on, the levels do not get in each other's way. */
  lemma RoomForLevel(n: nat, alg: Algorithm, k: nat, m: nat, j: nat)
    requires m >= 2 && k + 1 < Levels(n, alg) && j < Digests(n, alg, k)
    ensures var r, x := Levels(n, alg) - 1, j / HashesPerBlock(alg);
            Digests(n, alg, k + 1) + EndBlock(alg, r, k + 1, m, x) <= Repeat(alg, r, k + 1, m, x)
  {
    hide Digests, Levels, HashesPerBlock;
    var r, h := Levels(n, alg) - 1, HashesPerBlock(alg);
    var x := j / h;
    assert h >= 64;
    DigestsFit(n, alg, k + 1);
    OneRoot(n, alg, k + 1);
    if k + 1 == r {
      assert Repeat(alg, r, k + 1, m, x) == m * 1 + x;
      DivSmall(m, h);
    } else {
      ParentIndex(alg, j, Digests(n, alg, k));
      NextDigests(n, alg, k);
      ParentIndex(alg, x, Digests(n, alg, k + 1));
      NextDigests(n, alg, k + 1);
      DigestsFit(n, alg, k + 2);
      var p := Pow(h, r - k - 2);
      assert Repeat(alg, r, k + 2, m, x / h) == m * p + x / h && Repeat(alg, r, k + 1, m, x) == m * (h * p) + x;
      Spread(m, h, p);
    }
  }

  lemma DivSmall(m: nat, h: nat)
    requires m >= 2 && h >= 64
    ensures 1 + (1 + m / h) <= m
  {
    assert m == h * (m / h) + m % h;
    if m / h > 0 { assert h * (m / h) >= 64 * (m / h); }
  }

  lemma Spread(m: nat, h: nat, p: nat)
    requires m >= 2 && h >= 64 && p > 0
    ensures h * p + (1 + (m * p + (p - 1))) <= m * (h * p)
  {
    Factored(m, h, p);
    Dominates(m, h);
    MulMonotone(h + m + 1, m * h, p);
  }

  lemma Factored(m: nat, h: nat, p: nat)
    ensures m * (h * p) == (m * h) * p && h * p + m * p + p == (h + m + 1) * p
  {
  }

  lemma {:induction false} Dominates(m: nat, h: nat)
    requires m >= 2 && h >= 64
    ensures m * h >= h + m + 1
    decreases m
  {
    if m > 2 {
      Dominates(m - 1, h);
      assert m * h == (m - 1) * h + h;
    }
  }

  /** A tree file in which block j of level k verifies at its index of turn m. */
  lemma {:induction false} RepeatTree(H: Hash, alg: Algorithm, data: Bytes, layout: Layout, k: nat, m: nat, j: nat)
    returns (tree: Bytes)
    requires IsHash(H) && Describes(layout, |data|, alg, false) && k < |layout.levelOffset|
    requires j < Digests(NumBlocks(|data|), alg, k) && (m >= 2 || k + 1 == |layout.levelOffset|)
    ensures Climb(H, alg, tree, layout, k, Repeat(alg, |layout.levelOffset| - 1, k, m, j),
                  BlockAt(Below(H, alg, data, k), j))
            == Some(RootHash(H, alg, data))
    ensures |tree| <= layout.levelOffset[k] + BLOCK_SIZE * EndBlock(alg, |layout.levelOffset| - 1, k, m, j)
    decreases |layout.levelOffset| - k
  {
    hide RootHash, Below, BlockAt, NumBlocks, LevelOffset, ReadAt;
    hide HashesPerBlock, DigestSize, Digests, Levels, Repeat, EndBlock;
    var n, r, h := NumBlocks(|data|), |layout.levelOffset| - 1, HashesPerBlock(alg);
    OneRoot(n, alg, k);
    if k == r {
      tree := TopTree(H, alg, data, layout, m);
      assert j == 0;
      RootIsDigest(H, alg, data, k);
      TopIndex(alg, r, m);
    } else {
      var x := j / h;
      ParentIndex(alg, j, Digests(n, alg, k));
      NextDigests(n, alg, k);
      var top := RepeatTree(H, alg, data, layout, k + 1, m, x);
      RoomForLevel(n, alg, k, m, j);
      LevelDistance(|data|, alg, k);
      RepeatUp(alg, r, k, m, j);
      var y := Repeat(alg, r, k + 1, m, x);
      EndOfLevel(alg, r, k, m, j);
      var a := BlockOffset(layout, k, y);
      assert a == layout.levelOffset[k] + BLOCK_SIZE * y;
      var gap := Zeros(a - |top|);
      var block := BlockAt(Below(H, alg, data, k + 1), x);
      tree := top + (gap + block);
      assert tree == (top + gap) + block + [];
      ReadMiddle(top + gap, block, [], 0, BLOCK_SIZE);
      assert block[0..BLOCK_SIZE] == block;
      ClimbPrefix(H, alg, top, gap + block, layout, k + 1, y, block);
      RepeatStep(H, alg, data, tree, layout, k, Repeat(alg, r, k, m, j), j, block);
    }
  }

  lemma EndOfLevel(alg: Algorithm, r: nat, k: nat, m: nat, j: nat)
    requires k < r
    ensures EndBlock(alg, r, k, m, j) == 1 + Repeat(alg, r, k + 1, m, j / HashesPerBlock(alg))
  {
  }

  lemma TopIndex(alg: Algorithm, r: nat, m: nat)
    ensures Repeat(alg, r, r, m, 0) == m && EndBlock(alg, r, r, m, 0) == 1 + m / HashesPerBlock(alg)
  {
  }

  lemma LevelDistance(size: nat, alg: Algorithm, k: nat)
    ensures LevelOffset(size, alg, false, k + 1) == LevelOffset(size, alg, false, k)
              + BLOCK_SIZE * Digests(NumBlocks(size), alg, k + 1)
  {
  }

  /** The place of the root hash in turn m. */
  lemma TopTree(H: Hash, alg: Algorithm, data: Bytes, layout: Layout, m: nat) returns (tree: Bytes)
    requires IsHash(H) && layout.digestSize == DigestSize(alg) && |layout.levelOffset| > 0
    ensures var r := |layout.levelOffset| - 1;
            forall block :: H(alg, block) == RootHash(H, alg, data) ==>
              Climb(H, alg, tree, layout, r, m, block) == Some(RootHash(H, alg, data))
    ensures var r := |layout.levelOffset| - 1;
            |RootHash(H, alg, data)| == DigestSize(alg) ==>
              |tree| <= layout.levelOffset[r] + BLOCK_SIZE * (1 + m / HashesPerBlock(alg))
  {
    hide RootHash, ReadAt;
    var r, d, root := |layout.levelOffset| - 1, DigestSize(alg), RootHash(H, alg, data);
    var a := DigestOffset(layout, r, m);
    DigestInBlock(alg, m);
    tree := Zeros(a) + root;
    assert Zeros(a) + root + [] == tree;
    if |root| == d {
      ReadMiddle(Zeros(a), root, [], 0, d);
      assert root[0..d] == root;
    }
    forall block | H(alg, block) == root ensures Climb(H, alg, tree, layout, r, m, block) == Some(root) {
      assert |root| == d;
    }
  }

  /** One level of a climb through a true block. */
  lemma RepeatStep(H: Hash, alg: Algorithm, data: Bytes, tree: Bytes, layout: Layout, k: nat, index: nat, j: nat,
                   block: Bytes)
    requires IsHash(H) && k + 1 < |layout.levelOffset| && layout.digestSize == DigestSize(alg)
    requires j < Digests(NumBlocks(|data|), alg, k) && index % HashesPerBlock(alg) == j % HashesPerBlock(alg)
    requires block == BlockAt(Below(H, alg, data, k + 1), j / HashesPerBlock(alg))
    requires ReadAt(tree, BlockOffset(layout, k, index / HashesPerBlock(alg)), BLOCK_SIZE) == block
    ensures Climb(H, alg, tree, layout, k, index, BlockAt(Below(H, alg, data, k), j))
         == Climb(H, alg, tree, layout, k + 1, index / HashesPerBlock(alg), block)
  {
    hide Below, BlockAt, NumBlocks, Digests;
    var h, d := HashesPerBlock(alg), DigestSize(alg);
    var a := BlockOffset(layout, k, index / h);
    DigestInBlock(alg, index);
    DigestInParent(H, alg, data, k, j);
    assert |block| == BLOCK_SIZE;
    FullRead(tree, a, BLOCK_SIZE);
    ReadWithin(tree, a, BLOCK_SIZE, (index % h) * d, d);
    assert DigestOffset(layout, k, index) == a + (index % h) * d;
  }

  /** "What Verify accepts is the file" fails behind the room of the tree, for every
      file: block j of the file, repeated in turn m, verifies. A file of one
      block has no digests above it, so that turn 1 will do; others need turn 2. */
  lemma RepeatVerifies(H: Hash, encode: Encoding, data: Bytes, meta: Metadata, alg: Algorithm, m: nat, j: nat)
    returns (q: Request)
    requires IsHash(H) && !alg.OtherAlgorithm? && j < NumBlocks(|data|)
    requires m >= 2 || (m == 1 && Height(|data|, alg) == 1)
    ensures q.size == |data| && q.meta == meta && q.expected == FileHash(H, encode, alg, data, meta)
    ensures q.offset == (m * Capacity(|data|, alg) + j) * BLOCK_SIZE && q.count == BLOCK_SIZE
    ensures VerifyResult(H, encode, q) == Outcome(true, false, BlockAt(data, j))
  {
    hide RootHash, BlockAt, NumBlocks, ReadAt, HashesPerBlock, DigestSize, Levels, Capacity, Climb;
    var layout := LayoutOf(|data|, alg, false);
    var tree := RepeatTree(H, alg, data, layout, 0, m, j);
    var i, block := m * Capacity(|data|, alg) + j, BlockAt(data, j);
    CapacityIndex(|data|, alg, m, j);
    q := Request(Zeros(i * BLOCK_SIZE) + block, tree, |data|, meta, alg, i * BLOCK_SIZE, BLOCK_SIZE,
                 FileHash(H, encode, alg, data, meta), false);
    assert Zeros(i * BLOCK_SIZE) + block == Zeros(i * BLOCK_SIZE) + block + [];
    ReadMiddle(Zeros(i * BLOCK_SIZE), block, [], 0, BLOCK_SIZE);
    assert block[0..BLOCK_SIZE] == block;
    assert ZeroPadded(block) == block;
    WholeBlock(H, encode, q, i, block);
  }

  lemma CapacityIndex(size: nat, alg: Algorithm, m: nat, j: nat)
    ensures Repeat(alg, Height(size, alg) - 1, 0, m, j) == m * Capacity(size, alg) + j
  {
  }

  /** A request for exactly one block. */
  lemma WholeBlock(H: Hash, encode: Encoding, q: Request, i: nat, block: Bytes)
    requires q.offset == i * BLOCK_SIZE && q.count == BLOCK_SIZE && !q.alg.OtherAlgorithm?
    requires |block| == BLOCK_SIZE && ReadAt(q.file, i * BLOCK_SIZE, BLOCK_SIZE) == block
    requires Verifies(H, encode, q, i, block)
    ensures VerifyResult(H, encode, q) == Outcome(true, false, block)
  {
    hide ReadAt, BlockVerifies, ZeroPadded;
    assert FirstBlock(q) == i && LastBlock(q) == i;
    assert [] + Piece(q, i, block) == block;
    assert VerifyFrom(H, encode, q, i + 1, block, false) == Outcome(true, false, block);
  }
}
