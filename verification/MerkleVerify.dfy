/** Verifying a range of a file against its Merkle tree: what is accepted is
    genuine, and what is genuine is accepted. */
module MerkleVerify {
  import opened Words
  import opened MerkleLayout
  import opened MerkleTree

  // ----- one block -----

  /** Follow block, which is block index of what level k hashes, up to the root:
      the root digest, if the tree agrees on every level. */
  function Climb(H: Hash, alg: Algorithm, tree: Bytes, layout: Layout, k: nat, index: nat, block: Bytes): Option<Bytes>
    requires k < |layout.levelOffset|
    decreases |layout.levelOffset| - k
  {
    var digest := H(alg, block);
    if ReadAt(tree, DigestOffset(layout, k, index), DigestSize(alg)) != digest then None
    else if k + 1 == |layout.levelOffset| then Some(digest)
    else
      var parent := ReadAt(tree, BlockOffset(layout, k, index / HashesPerBlock(alg)), BLOCK_SIZE);
      if |parent| < BLOCK_SIZE then None
      else Climb(H, alg, tree, layout, k + 1, index / HashesPerBlock(alg), parent)
  }

  /** What a climb hashes. */
  ghost function Climbed(H: Hash, alg: Algorithm, tree: Bytes, layout: Layout, k: nat, index: nat,
                         block: Bytes): set<Bytes>
    requires k < |layout.levelOffset|
    decreases |layout.levelOffset| - k
  {
    {block} +
    (if k + 1 == |layout.levelOffset| then {}
     else Climbed(H, alg, tree, layout, k + 1, index / HashesPerBlock(alg),
                  ReadAt(tree, BlockOffset(layout, k, index / HashesPerBlock(alg)), BLOCK_SIZE)))
  }

  /** Everything Generate hashes. */
  ghost predicate Generated(H: Hash, encode: Encoding, alg: Algorithm, data: Bytes, meta: Metadata, y: Bytes) {
    || y == encode(DescriptorOf(H, alg, data, meta))
    || exists k: nat, i: nat ::
         k < Height(|data|, alg) && i < Digests(NumBlocks(|data|), alg, k) && y == BlockAt(Below(H, alg, data, k), i)
  }

  /** No string of xs collides with one that Generate hashed. */
  ghost predicate CollisionFree(H: Hash, encode: Encoding, alg: Algorithm, data: Bytes, meta: Metadata,
                                xs: set<Bytes>) {
    forall x, y :: x in xs && Generated(H, encode, alg, data, meta, y) && H(alg, x) == H(alg, y) ==> x == y
  }

  lemma ParentIndex(alg: Algorithm, index: nat, n: nat)
    requires index < n
    ensures index / HashesPerBlock(alg) < Ceil(n, HashesPerBlock(alg))
  {
    if alg.Sha512? { assert HashesPerBlock(alg) == 64; } else { assert HashesPerBlock(alg) == 128; }
  }

  lemma ReadWithin(s: Bytes, a: nat, n: nat, b: nat, m: nat)
    requires a + n <= |s| && b + m <= n && n > 0 && m > 0
    ensures ReadAt(s, a + b, m) == ReadAt(s, a, n)[b..b + m]
  {
  }

  lemma SlicePrefix(s: Bytes, padded: Bytes, a: nat, off: nat, d: nat)
    requires s <= padded && a + off + d <= |s| && off + d <= BLOCK_SIZE && a + BLOCK_SIZE <= |padded| && d > 0
    ensures padded[a..a + BLOCK_SIZE][off..off + d] == ReadAt(s, a + off, d)
  {
    var x, y := padded[a..a + BLOCK_SIZE][off..off + d], s[a + off..a + off + d];
    forall j | 0 <= j < d ensures x[j] == y[j] { assert x[j] == padded[a + off + j] == s[a + off + j]; }
    assert x == y;
  }

  lemma MulMonotone(x: nat, y: nat, d: nat)
    requires x <= y
    ensures x * d <= y * d
  {
  }

  /** The digest of a block stands in the block of digests above it, which is
      block q, at off. */
  lemma BelowNext(H: Hash, alg: Algorithm, data: Bytes, k: nat)
    requires IsHash(H)
    ensures Below(H, alg, data, k + 1) == HashBlocks(H, alg, Below(H, alg, data, k), Digests(NumBlocks(|data|), alg, k))
  {
    BelowBlocks(H, alg, data, k);
  }

  lemma DigestAt(H: Hash, alg: Algorithm, data: Bytes, k: nat, index: nat, q: nat, off: nat)
    requires IsHash(H) && index < Digests(NumBlocks(|data|), alg, k) && q < Digests(NumBlocks(|data|), alg, k + 1)
    requires index * DigestSize(alg) == q * BLOCK_SIZE + off && off + DigestSize(alg) <= BLOCK_SIZE
    ensures BlockAt(Below(H, alg, data, k + 1), q)[off..off + DigestSize(alg)]
              == H(alg, BlockAt(Below(H, alg, data, k), index))
  {
    hide Below, HashBlocks, Digests, BlockAt, NumBlocks, Ceil;
    var d, n := DigestSize(alg), Digests(NumBlocks(|data|), alg, k);
    var lower, level := Below(H, alg, data, k), Below(H, alg, data, k + 1);
    BelowNext(H, alg, data, k);
    BelowBlocks(H, alg, data, k + 1);
    HashBlocksAt(H, alg, lower, n, index);
    HashBlocksLength(H, alg, lower, n);
    PaddedBlock(level, q);
    MulMonotone(index + 1, n, d);
    hide Padded;
    SlicePrefix(level, Padded(level), q * BLOCK_SIZE, off, d);
  }

  lemma DigestInParent(H: Hash, alg: Algorithm, data: Bytes, k: nat, index: nat)
    requires IsHash(H) && index < Digests(NumBlocks(|data|), alg, k)
    ensures var h, d := HashesPerBlock(alg), DigestSize(alg);
            && 0 <= (index % h) * d <= BLOCK_SIZE - d
            && BlockAt(Below(H, alg, data, k + 1), index / h)[(index % h) * d..(index % h) * d + d]
               == H(alg, BlockAt(Below(H, alg, data, k), index))
  {
    var h, d, n := HashesPerBlock(alg), DigestSize(alg), NumBlocks(|data|);
    DigestInBlock(alg, index);
    ParentIndex(alg, index, Digests(n, alg, k));
    NextDigests(n, alg, k);
    hide Below, Digests, BlockAt, NumBlocks, Ceil, HashesPerBlock, DigestSize;
    DigestAt(H, alg, data, k, index, index / h, (index % h) * d);
  }

  /** Soundness of a climb: if it ends in the true root, it began with the true
      block. */
  lemma {:induction false} ClimbIsSound(H: Hash, encode: Encoding, alg: Algorithm, data: Bytes, meta: Metadata,
                                        sameFile: bool, tree: Bytes, layout: Layout, k: nat, index: nat, block: Bytes)
    requires IsHash(H) && Describes(layout, |data|, alg, sameFile) && k < |layout.levelOffset|
    requires index < Digests(NumBlocks(|data|), alg, k)
    requires Climb(H, alg, tree, layout, k, index, block) == Some(RootHash(H, alg, data))
    requires CollisionFree(H, encode, alg, data, meta, Climbed(H, alg, tree, layout, k, index, block))
    ensures block == BlockAt(Below(H, alg, data, k), index)
    decreases |layout.levelOffset| - k
  {
    var truth := BlockAt(Below(H, alg, data, k), index);
    var n := NumBlocks(|data|);
    assert Generated(H, encode, alg, data, meta, truth);
    assert block in Climbed(H, alg, tree, layout, k, index, block);
    OneRoot(n, alg, k);
    if k + 1 == |layout.levelOffset| {
      RootIsDigest(H, alg, data, k);
    } else {
      var h := HashesPerBlock(alg);
      var parent := ReadAt(tree, BlockOffset(layout, k, index / h), BLOCK_SIZE);
      ParentIndex(alg, index, Digests(n, alg, k));
      NextDigests(n, alg, k);
      SubsetCollisionFree(H, encode, alg, data, meta, Climbed(H, alg, tree, layout, k, index, block),
                          Climbed(H, alg, tree, layout, k + 1, index / h, parent));
      hide CollisionFree;
      ClimbIsSound(H, encode, alg, data, meta, sameFile, tree, layout, k + 1, index / h, parent);
      ExpectedInParent(H, alg, data, tree, layout, k, index, parent);
    }
  }

  lemma SubsetCollisionFree(H: Hash, encode: Encoding, alg: Algorithm, data: Bytes, meta: Metadata, xs: set<Bytes>,
                            ys: set<Bytes>)
    requires CollisionFree(H, encode, alg, data, meta, xs) && ys <= xs
    ensures CollisionFree(H, encode, alg, data, meta, ys)
  {
  }

  lemma RootIsDigest(H: Hash, alg: Algorithm, data: Bytes, k: nat)
    requires IsHash(H) && k + 1 == Height(|data|, alg) && Digests(NumBlocks(|data|), alg, k) == 1
    ensures RootHash(H, alg, data) == H(alg, BlockAt(Below(H, alg, data, k), 0))
  {
    BelowBlocks(H, alg, data, k);
    hide BlockAt, NumBlocks;
    assert HashBlocks(H, alg, Below(H, alg, data, k), 0) == [];
  }

  /** The digest read for a block is the one in the block above. */
  lemma ExpectedInParent(H: Hash, alg: Algorithm, data: Bytes, tree: Bytes, layout: Layout, k: nat, index: nat,
                         parent: Bytes)
    requires IsHash(H) && k < |layout.levelOffset| && layout.digestSize == DigestSize(alg)
    requires index < Digests(NumBlocks(|data|), alg, k)
    requires parent == ReadAt(tree, BlockOffset(layout, k, index / HashesPerBlock(alg)), BLOCK_SIZE)
    requires parent == BlockAt(Below(H, alg, data, k + 1), index / HashesPerBlock(alg))
    ensures ReadAt(tree, DigestOffset(layout, k, index), DigestSize(alg))
              == H(alg, BlockAt(Below(H, alg, data, k), index))
  {
    var h, d := HashesPerBlock(alg), DigestSize(alg);
    DigestInBlock(alg, index);
    DigestInParent(H, alg, data, k, index);
    assert |parent| == BLOCK_SIZE;
    var a := BlockOffset(layout, k, index / h);
    assert a + BLOCK_SIZE <= |tree| && d > 0;
    hide Below, BlockAt, Digests, NumBlocks, HashesPerBlock, DigestSize;
    ReadWithin(tree, a, BLOCK_SIZE, (index % h) * d, d);
  }

  // ----- completeness of a climb -----

  lemma {:induction false} WrittenPrefix(H: Hash, alg: Algorithm, data: Bytes, j: nat, k: nat)
    requires j <= k
    ensures Written(H, alg, data, j) <= Written(H, alg, data, k)
    decreases k
  {
    hide Padded, Level;
    if j < k { WrittenPrefix(H, alg, data, j, k - 1); }
  }

  /** The whole tree file. */
  function Whole(H: Hash, alg: Algorithm, data: Bytes, sameFile: bool): Bytes {
    FileWith(data, sameFile, TreeFile(H, alg, data, sameFile))
  }

  lemma TreeAtRoot(H: Hash, alg: Algorithm, data: Bytes, sameFile: bool)
    ensures var root := Height(|data|, alg) - 1;
            Whole(H, alg, data, sameFile)
            == Front(data, sameFile) + Written(H, alg, data, root) + Level(H, alg, data, root)
  {
    var root := Height(|data|, alg) - 1;
    var w, l := Written(H, alg, data, root), Level(H, alg, data, root);
    hide Written, Level, Front, Height, FileWith, DataPadding, Below, Padded, NumBlocks;
    assert TreeFile(H, alg, data, sameFile) == DataPadding(data, sameFile) + (w + l);
    FileWithFront(data, sameFile, w + l);
    Associative(Front(data, sameFile), w, l);
  }

  lemma Associative(a: Bytes, b: Bytes, c: Bytes)
    ensures a + (b + c) == a + b + c
  {
  }

  lemma SplitPrefix(f: Bytes, w: Bytes, all: Bytes, l: Bytes)
    requires w <= all
    ensures f + all + l == f + w + (all[|w|..] + l)
  {
    assert all == w + all[|w|..];
  }

  /** A block of digests, read from the tree file. */
  lemma ParentReadsBack(H: Hash, alg: Algorithm, data: Bytes, sameFile: bool, k: nat, q: nat, layout: Layout)
    requires IsHash(H) && Describes(layout, |data|, alg, sameFile) && k + 1 < |layout.levelOffset|
    requires q < Digests(NumBlocks(|data|), alg, k + 1)
    ensures ReadAt(Whole(H, alg, data, sameFile), BlockOffset(layout, k, q), BLOCK_SIZE)
              == BlockAt(Below(H, alg, data, k + 1), q)
  {
    hide Written, Level, Front, Digests, NumBlocks, FileWith, TreeFile;
    hide Below, BlockAt, ReadAt, LevelOffset, Whole, Levels;
    var root := Height(|data|, alg) - 1;
    var f, w := Front(data, sameFile), Written(H, alg, data, k + 1);
    var all, l := Written(H, alg, data, root), Level(H, alg, data, root);
    WrittenPrefix(H, alg, data, k + 1, root);
    TreeAtRoot(H, alg, data, sameFile);
    SplitPrefix(f, w, all, l);
    ReadsBack(H, alg, data, sameFile, k, q, all[|w|..] + l);
  }

  /** The root hash, read from the tree file. */
  lemma RootReadsBack(H: Hash, alg: Algorithm, data: Bytes, sameFile: bool, k: nat, layout: Layout)
    requires IsHash(H) && Describes(layout, |data|, alg, sameFile) && k + 1 == |layout.levelOffset|
    requires |RootHash(H, alg, data)| == DigestSize(alg)
    ensures ReadAt(Whole(H, alg, data, sameFile), layout.levelOffset[k], DigestSize(alg)) == RootHash(H, alg, data)
  {
    hide Written, Level, Front, NumBlocks, FileWith, TreeFile, ReadAt, LevelOffset, Whole, Levels, TreeStart;
    var root := RootHash(H, alg, data);
    var a := Front(data, sameFile) + Written(H, alg, data, k);
    TreeAtRoot(H, alg, data, sameFile);
    WrittenLength(H, alg, data, sameFile, k);
    ReadMiddle(a, root, [], 0, DigestSize(alg));
    assert a + root + [] == Whole(H, alg, data, sameFile);
    assert root[0..DigestSize(alg)] == root;
  }

  /** The digest of a block, where the layout has it in the tree file. */
  lemma DigestReadsBack(H: Hash, alg: Algorithm, data: Bytes, sameFile: bool, k: nat, index: nat, layout: Layout)
    requires IsHash(H) && Describes(layout, |data|, alg, sameFile) && k < |layout.levelOffset|
    requires index < Digests(NumBlocks(|data|), alg, k)
    ensures ReadAt(Whole(H, alg, data, sameFile), DigestOffset(layout, k, index), DigestSize(alg))
            == H(alg, BlockAt(Below(H, alg, data, k), index))
  {
    var h, n, tree := HashesPerBlock(alg), NumBlocks(|data|), Whole(H, alg, data, sameFile);
    assert index == 0 ==> DigestOffset(layout, k, index) == layout.levelOffset[k];
    hide Below, BlockAt, Digests, NumBlocks, Ceil, Whole, LevelOffset, ReadAt, RootHash, HashesPerBlock, Levels;
    hide DigestOffset, BlockOffset, DigestSize;
    OneRoot(n, alg, k);
    if k + 1 < |layout.levelOffset| {
      ParentIndex(alg, index, Digests(n, alg, k));
      NextDigests(n, alg, k);
      ParentReadsBack(H, alg, data, sameFile, k, index / h, layout);
      ExpectedInParent(H, alg, data, tree, layout, k, index,
                       ReadAt(tree, BlockOffset(layout, k, index / h), BLOCK_SIZE));
    } else {
      RootIsDigest(H, alg, data, k);
      RootReadsBack(H, alg, data, sameFile, k, layout);
    }
  }

  /** A climb from a true block in the true tree ends in the root. */
  lemma {:induction false} ClimbIsComplete(H: Hash, alg: Algorithm, data: Bytes, sameFile: bool, layout: Layout, k: nat,
                                           index: nat)
    requires IsHash(H) && Describes(layout, |data|, alg, sameFile) && k < |layout.levelOffset|
    requires index < Digests(NumBlocks(|data|), alg, k)
    ensures Climb(H, alg, Whole(H, alg, data, sameFile), layout, k, index, BlockAt(Below(H, alg, data, k), index))
            == Some(RootHash(H, alg, data))
    decreases |layout.levelOffset| - k
  {
    var h, n := HashesPerBlock(alg), NumBlocks(|data|);
    hide Below, BlockAt, Digests, NumBlocks, Ceil, Whole, LevelOffset, ReadAt, RootHash, HashesPerBlock, Levels;
    DigestReadsBack(H, alg, data, sameFile, k, index, layout);
    OneRoot(n, alg, k);
    if k + 1 < |layout.levelOffset| {
      ParentIndex(alg, index, Digests(n, alg, k));
      NextDigests(n, alg, k);
      ParentReadsBack(H, alg, data, sameFile, k, index / h, layout);
      ClimbIsComplete(H, alg, data, sameFile, layout, k + 1, index / h);
    } else {
      RootIsDigest(H, alg, data, k);
    }
  }

  // ----- verifying a block -----

  /** A block climbs to a root whose descriptor has the expected hash. */
  predicate BlockVerifies(H: Hash, encode: Encoding, alg: Algorithm, tree: Bytes, layout: Layout, meta: Metadata,
                          size: nat,
                          block: Bytes, index: nat, expected: Bytes)
    requires |layout.levelOffset| > 0
  {
    match Climb(H, alg, tree, layout, 0, index, block)
    case None => false
    case Some(root) => H(alg, encode(Descriptor(meta, size, root))) == expected
  }

  /** The climb that is left after level levels have agreed. */
  ghost function ClimbOn(H: Hash, alg: Algorithm, tree: Bytes, layout: Layout, level: nat, index: nat,
                         digest: Bytes): Option<Bytes>
    requires 0 < level <= |layout.levelOffset|
  {
    if level == |layout.levelOffset| then Some(digest)
    else
      var parent := ReadAt(tree, BlockOffset(layout, level - 1, index), BLOCK_SIZE);
      if |parent| < BLOCK_SIZE then None else Climb(H, alg, tree, layout, level, index, parent)
  }

  method VerifyBlock(H: Hash, encode: Encoding, alg: Algorithm, tree: Bytes, layout: Layout, meta: Metadata, size: nat,
                     block: Bytes, blockIndex: nat, expected: Bytes)
    returns (ok: bool)
    requires IsHash(H) && |layout.levelOffset| > 0 && layout.digestSize == DigestSize(alg)
    ensures ok <==>
              && |block| == BLOCK_SIZE
              && BlockVerifies(H, encode, alg, tree, layout, meta, size, block, blockIndex, expected)
  {
    if |block| != BLOCK_SIZE { return false; }
    var level, digest := 0, [];
    var index: nat := blockIndex;
    hide ReadAt, BlockOffset, DigestOffset, HashesPerBlock;
    while level < |layout.levelOffset|
      invariant 0 <= level <= |layout.levelOffset|
      invariant level == 0 ==> index == blockIndex
      invariant level > 0 ==>
                  Climb(H, alg, tree, layout, 0, blockIndex, block)
                  == ClimbOn(H, alg, tree, layout, level, index, digest)
    {
      if level == 0 {
        digest := H(alg, block);
      } else {
        var treeBlock := ReadAt(tree, BlockOffset(layout, level - 1, index), BLOCK_SIZE);
        if |treeBlock| < BLOCK_SIZE { return false; }
        digest := H(alg, treeBlock);
      }
      if digest != ReadAt(tree, DigestOffset(layout, level, index), layout.digestSize) { return false; }
      index := index / HashesPerBlock(alg);
      level := level + 1;
    }
    ok := H(alg, encode(Descriptor(meta, size, digest))) == expected;
  }

  /** What verifying a block hashes. */
  ghost function BlockHashes(H: Hash, encode: Encoding, alg: Algorithm, tree: Bytes, layout: Layout, meta: Metadata,
                             size: nat,
                             block: Bytes, index: nat): set<Bytes>
    requires |layout.levelOffset| > 0
  {
    Climbed(H, alg, tree, layout, 0, index, block) +
    match Climb(H, alg, tree, layout, 0, index, block) {
      case None => {}
      case Some(root) => {encode(Descriptor(meta, size, root))}
    }
  }

  /** No other descriptor has the encoding of a file's. */
  ghost predicate Unambiguous(H: Hash, encode: Encoding, alg: Algorithm, data: Bytes, meta: Metadata) {
    forall d :: encode(d) == encode(DescriptorOf(H, alg, data, meta)) ==> d == DescriptorOf(H, alg, data, meta)
  }

  /** A hash that agrees with a file's is that of the same descriptor. */
  lemma SameDescriptor(H: Hash, encode: Encoding, alg: Algorithm, data: Bytes, meta: Metadata, alg2: Algorithm,
                       d: Descriptor)
    requires IsHash(H) && !alg.OtherAlgorithm? && !alg2.OtherAlgorithm? && Unambiguous(H, encode, alg, data, meta)
    requires H(alg2, encode(d)) == FileHash(H, encode, alg, data, meta)
    requires CollisionFree(H, encode, alg, data, meta, {encode(d)})
    ensures alg2 == alg && d == DescriptorOf(H, alg, data, meta)
  {
    assert |H(alg2, encode(d))| == DigestSize(alg2);
    assert Generated(H, encode, alg, data, meta, encode(DescriptorOf(H, alg, data, meta)));
    assert encode(d) in {encode(d)};
  }

  /** Soundness for one block: whatever the tree file holds, a block that verifies
      against the hash of a file is the block of that file. */
  lemma BlockIsGenuine(H: Hash, encode: Encoding, alg: Algorithm, data: Bytes, meta: Metadata,
                       alg2: Algorithm, tree: Bytes, layout: Layout, sameFile: bool,
                       meta2: Metadata, size: nat, block: Bytes, index: nat)
    requires IsHash(H) && !alg.OtherAlgorithm? && !alg2.OtherAlgorithm? && Unambiguous(H, encode, alg, data, meta)
    requires Describes(layout, size, alg2, sameFile) && index < NumBlocks(size)
    requires BlockVerifies(H, encode, alg2, tree, layout, meta2, size, block, index,
                           FileHash(H, encode, alg, data, meta))
    requires CollisionFree(H, encode, alg, data, meta,
                           BlockHashes(H, encode, alg2, tree, layout, meta2, size, block, index))
    ensures alg2 == alg && size == |data| && meta2 == meta && block == BlockAt(data, index)
  {
    var root := Climb(H, alg2, tree, layout, 0, index, block).value;
    var d := Descriptor(meta2, size, root);
    var xs := BlockHashes(H, encode, alg2, tree, layout, meta2, size, block, index);
    SubsetCollisionFree(H, encode, alg, data, meta, xs, {encode(d)});
    SubsetCollisionFree(H, encode, alg, data, meta, xs, Climbed(H, alg2, tree, layout, 0, index, block));
    hide CollisionFree, Climb, Climbed, RootHash, NumBlocks;
    SameDescriptor(H, encode, alg, data, meta, alg2, d);
    ClimbIsSound(H, encode, alg, data, meta, sameFile, tree, layout, 0, index, block);
  }

  // ----- verifying a range -----

  /** What Verify is given. The hash, the metadata and the size are trusted to be
      those the caller wants; the file and the tree are not. */
  datatype Request = Request(file: Bytes, tree: Bytes, size: nat, meta: Metadata, alg: Algorithm,
                             offset: nat, count: int, expected: Bytes, sameFile: bool)

  /** Out is what has been written, whether Verify succeeds or not; eof says that
      the file ended. */
  datatype Outcome = Outcome(ok: bool, eof: bool, out: Bytes)

  function FirstBlock(q: Request): nat { q.offset / BLOCK_SIZE }

  function LastBlock(q: Request): nat
    requires q.count > 0
  {
    (q.offset + q.count - 1) / BLOCK_SIZE
  }

  function Min(a: nat, b: nat): nat { if a < b then a else b }

  /** The part of data block i that is in the range, of the bytes that were read. */
  function Piece(q: Request, i: nat, bytes: Bytes): Bytes
    requires q.count > 0 && FirstBlock(q) <= i <= LastBlock(q) && |bytes| <= BLOCK_SIZE
  {
    var from := if i == FirstBlock(q) then q.offset % BLOCK_SIZE else 0;
    var to := if i == LastBlock(q) then (q.offset + q.count - 1) % BLOCK_SIZE + 1 else BLOCK_SIZE;
    bytes[Min(from, |bytes|)..Min(to, |bytes|)]
  }

  predicate Verifies(H: Hash, encode: Encoding, q: Request, i: nat, bytes: Bytes)
    requires |bytes| <= BLOCK_SIZE
  {
    BlockVerifies(H, encode, q.alg, q.tree, LayoutOf(q.size, q.alg, q.sameFile), q.meta, q.size, ZeroPadded(bytes), i,
                  q.expected)
  }

  /** The blocks from i on, after out has been written. */
  function VerifyFrom(H: Hash, encode: Encoding, q: Request, i: nat, out: Bytes, eof: bool): Outcome
    requires q.count > 0 && FirstBlock(q) <= i
    decreases LastBlock(q) + 1 - i
  {
    if i > LastBlock(q) then Outcome(true, eof, out)
    else
      var bytes := ReadAt(q.file, i * BLOCK_SIZE, BLOCK_SIZE);
      if bytes == [] then Outcome(true, true, out)
      else if !Verifies(H, encode, q, i, bytes) then Outcome(false, eof, out)
      else VerifyFrom(H, encode, q, i + 1, out + Piece(q, i, bytes), |bytes| < BLOCK_SIZE)
  }

  /** The descriptor with the root hash that the tree file has. */
  function StoredDescriptor(q: Request): Option<Descriptor> {
    var layout := LayoutOf(q.size, q.alg, q.sameFile);
    var root := if q.size == 0 then []
      else ReadAt(q.tree, BlockOffset(layout, |layout.levelOffset| - 1, 0), layout.digestSize);
    if q.size != 0 && |root| < layout.digestSize then None else Some(Descriptor(q.meta, q.size, root))
  }

  predicate MetadataVerifies(H: Hash, encode: Encoding, q: Request) {
    match StoredDescriptor(q)
    case None => false
    case Some(d) => H(q.alg, encode(d)) == q.expected
  }

  function VerifyResult(H: Hash, encode: Encoding, q: Request): Outcome {
    if q.count < 0 || q.alg.OtherAlgorithm? then Outcome(false, false, [])
    else if q.count == 0 then Outcome(MetadataVerifies(H, encode, q), false, [])
    else VerifyFrom(H, encode, q, FirstBlock(q), [], false)
  }

  method Verify(H: Hash, encode: Encoding, q: Request) returns (r: Outcome)
    requires IsHash(H)
    ensures r == VerifyResult(H, encode, q)
  {
    if q.count < 0 { return Outcome(false, false, []); }
    var init := InitLayout(q.size, q.alg, q.sameFile);
    if init.None? { return Outcome(false, false, []); }
    var layout := init.value;
    LayoutIsUnique(layout, q.size, q.alg, q.sameFile);
    if q.count == 0 {
      var ok := MetadataVerifies(H, encode, q);
      return Outcome(ok, false, []);
    }
    var first, last := FirstBlock(q), LastBlock(q);
    var out, eof: bool, i := [], false, first;
    hide FirstBlock, LastBlock, ReadAt, BlockVerifies;
    while i <= last
      invariant first <= i
      invariant VerifyResult(H, encode, q) == VerifyFrom(H, encode, q, i, out, eof)
    {
      var bytes := ReadAt(q.file, i * BLOCK_SIZE, BLOCK_SIZE);
      if bytes == [] { return Outcome(true, true, out); }
      var ok := VerifyBlock(H, encode, q.alg, q.tree, layout, q.meta, q.size, ZeroPadded(bytes), i, q.expected);
      if !ok { return Outcome(false, eof, out); }
      out := out + Piece(q, i, bytes);
      eof := |bytes| < BLOCK_SIZE;
      i := i + 1;
    }
    return Outcome(true, eof, out);
  }
}
