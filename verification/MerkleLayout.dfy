/** The shape of a file's Merkle tree: how many levels there are, how many digests
    each has, and where each starts. */
module MerkleLayout {
  import opened Words

  type Bytes = seq<u8>

  const BLOCK_SIZE := 4096

  /** FS_VERITY_HASH_ALG_SHA256, _SHA512, or a value that is neither. */
  datatype Algorithm = Sha256 | Sha512 | OtherAlgorithm

  function DigestSize(alg: Algorithm): nat { if alg.Sha512? then 64 else 32 }

  function HashesPerBlock(alg: Algorithm): (h: nat)
    ensures h == if alg.Sha512? then 64 else 128
  {
    BLOCK_SIZE / DigestSize(alg)
  }

  function Ceil(n: nat, h: nat): nat
    requires h > 0
  {
    (n + h - 1) / h
  }

  function NumBlocks(size: nat): nat { Ceil(size, BLOCK_SIZE) }

  lemma CeilSmaller(n: nat, alg: Algorithm)
    requires n > 1
    ensures 1 <= Ceil(n, HashesPerBlock(alg)) < n
  {
    if alg.Sha512? { assert HashesPerBlock(alg) == 64; } else { assert HashesPerBlock(alg) == 128; }
  }

  /** Digests on level k, for n data blocks. */
  function Digests(n: nat, alg: Algorithm, k: nat): nat {
    if k == 0 then n else Ceil(Digests(n, alg, k - 1), HashesPerBlock(alg))
  }

  /** Levels above and including one with n digests. */
  function Levels(n: nat, alg: Algorithm): (r: nat)
    ensures r > 0
    decreases n
  {
    if n <= 1 then 1
    else
      CeilSmaller(n, alg);
      1 + Levels(Ceil(n, HashesPerBlock(alg)), alg)
  }

  function Height(size: nat, alg: Algorithm): nat { Levels(NumBlocks(size), alg) }

  /** Where the tree starts: behind the padded data, if they share a file. */
  function TreeStart(size: nat, sameFile: bool): nat { if sameFile then BLOCK_SIZE * NumBlocks(size) else 0 }

  /** Where level k starts. */
  function LevelOffset(size: nat, alg: Algorithm, sameFile: bool, k: nat): nat {
    if k == 0 then TreeStart(size, sameFile)
    else LevelOffset(size, alg, sameFile, k - 1) + BLOCK_SIZE * Digests(NumBlocks(size), alg, k)
  }

  /** Levels can be counted from the bottom. */
  lemma {:induction false} DigestsShift(n: nat, alg: Algorithm, k: nat)
    ensures Digests(Ceil(n, HashesPerBlock(alg)), alg, k) == Digests(n, alg, k + 1)
  {
    if k > 0 { DigestsShift(n, alg, k - 1); }
  }

  /** The root level is the first with at most one digest. */
  lemma {:induction false} OneRoot(n: nat, alg: Algorithm, k: nat)
    requires k < Levels(n, alg)
    ensures k + 1 < Levels(n, alg) <==> Digests(n, alg, k) > 1
    ensures k + 1 == Levels(n, alg) ==> Digests(n, alg, k) == if n == 0 then 0 else 1
    decreases n
  {
    if n > 1 {
      var m := Ceil(n, HashesPerBlock(alg));
      CeilSmaller(n, alg);
      if k > 0 {
        OneRoot(m, alg, k - 1);
        DigestsShift(n, alg, k - 1);
      }
    }
  }

  lemma RoundUpTo64(n: nat)
    ensures (n + (64 - n % 64) % 64) / 64 == (n + 63) / 64
  {
    var q, r := n / 64, n % 64;
    assert n == 64 * q + r;
  }

  lemma RoundUpTo128(n: nat)
    ensures (n + (128 - n % 128) % 128) / 128 == (n + 127) / 128
  {
    var q, r := n / 128, n % 128;
    assert n == 128 * q + r;
  }

  /** The blocks n digests fill when the last is rounded up. */
  function RoundedUp(n: nat, h: nat): nat
    requires h > 0
  {
    (n + (h - n % h) % h) / h
  }

  lemma RoundedUpIsCeil(n: nat, alg: Algorithm)
    ensures RoundedUp(n, HashesPerBlock(alg)) == Ceil(n, HashesPerBlock(alg))
  {
    if alg.Sha512? {
      assert HashesPerBlock(alg) == 64;
      RoundUpTo64(n);
    } else {
      assert HashesPerBlock(alg) == 128;
      RoundUpTo128(n);
    }
  }

  lemma PaddedSize(size: nat)
    ensures BLOCK_SIZE * NumBlocks(size) ==
              if size % BLOCK_SIZE == 0 then size else size + BLOCK_SIZE - size % BLOCK_SIZE
  {
    var q, r := size / BLOCK_SIZE, size % BLOCK_SIZE;
    assert size == BLOCK_SIZE * q + r;
  }

  /** The offsets of the levels of a tree. */
  datatype Layout = Layout(digestSize: nat, levelOffset: seq<nat>)

  ghost predicate Describes(layout: Layout, size: nat, alg: Algorithm, sameFile: bool) {
    && layout.digestSize == DigestSize(alg)
    && |layout.levelOffset| == Height(size, alg)
    && forall k {:trigger layout.levelOffset[k]} :: 0 <= k < |layout.levelOffset| ==>
      layout.levelOffset[k] == LevelOffset(size, alg, sameFile, k)
  }

  /** The layout of a tree, level by level. */
  function LayoutOf(size: nat, alg: Algorithm, sameFile: bool): (layout: Layout)
    ensures Describes(layout, size, alg, sameFile)
  {
    Layout(DigestSize(alg), seq(Height(size, alg), k requires k >= 0 => LevelOffset(size, alg, sameFile, k)))
  }

  lemma LayoutIsUnique(layout: Layout, size: nat, alg: Algorithm, sameFile: bool)
    requires Describes(layout, size, alg, sameFile)
    ensures layout == LayoutOf(size, alg, sameFile)
  {
    assert layout.levelOffset == LayoutOf(size, alg, sameFile).levelOffset;
  }

  /** One more level, seen from the top and from the bottom. */
  lemma NextLevel(size: nat, alg: Algorithm, sameFile: bool, k: nat, numBlocks: nat)
    requires numBlocks > 1 && numBlocks == Digests(NumBlocks(size), alg, k)
    ensures var m := Ceil(numBlocks, HashesPerBlock(alg));
            && m < numBlocks && m == Digests(NumBlocks(size), alg, k + 1)
            && Levels(numBlocks, alg) == 1 + Levels(m, alg)
            && LevelOffset(size, alg, sameFile, k + 1) == LevelOffset(size, alg, sameFile, k) + BLOCK_SIZE * m
  {
    CeilSmaller(numBlocks, alg);
  }

  method InitLayout(size: nat, alg: Algorithm, sameFile: bool) returns (r: Option<Layout>)
    ensures r.None? <==> alg.OtherAlgorithm?
    ensures r.Some? ==> Describes(r.value, size, alg, sameFile)
  {
    if alg.OtherAlgorithm? { return None; }
    var treeStart := 0;
    if sameFile {
      treeStart := size;
      if size % BLOCK_SIZE != 0 { treeStart := treeStart + BLOCK_SIZE - size % BLOCK_SIZE; }
    }
    PaddedSize(size);
    assert treeStart == LevelOffset(size, alg, sameFile, 0);
    hide NumBlocks, Ceil, HashesPerBlock, RoundedUp, Levels, Digests, LevelOffset;
    var numBlocks, offset := NumBlocks(size), 0;
    var levelOffset: seq<nat> := [];
    while numBlocks > 1
      invariant numBlocks == Digests(NumBlocks(size), alg, |levelOffset|)
      invariant treeStart + offset * BLOCK_SIZE == LevelOffset(size, alg, sameFile, |levelOffset|)
      invariant |levelOffset| + Levels(numBlocks, alg) == Height(size, alg)
      invariant forall k {:trigger levelOffset[k]} :: 0 <= k < |levelOffset| ==>
                  levelOffset[k] == LevelOffset(size, alg, sameFile, k)
      decreases numBlocks
    {
      NextLevel(size, alg, sameFile, |levelOffset|, numBlocks);
      RoundedUpIsCeil(numBlocks, alg);
      levelOffset := levelOffset + [treeStart + offset * BLOCK_SIZE];
      numBlocks := RoundedUp(numBlocks, HashesPerBlock(alg));
      offset := offset + numBlocks;
    }
    levelOffset := levelOffset + [treeStart + offset * BLOCK_SIZE];
    LastLevel(numBlocks, alg);
    return Some(Layout(DigestSize(alg), levelOffset));
  }

  lemma LastLevel(n: nat, alg: Algorithm)
    requires n <= 1
    ensures Levels(n, alg) == 1
  {
  }

  /** Where a digest and a block are. */
  function DigestOffset(layout: Layout, level: nat, index: nat): nat
    requires level < |layout.levelOffset|
  {
    layout.levelOffset[level] + index * layout.digestSize
  }

  function BlockOffset(layout: Layout, level: nat, index: nat): nat
    requires level < |layout.levelOffset|
  {
    layout.levelOffset[level] + index * BLOCK_SIZE
  }

  /** A digest lies in the block that the next level hashes. */
  lemma DigestInBlock(alg: Algorithm, index: nat)
    ensures var h, d := HashesPerBlock(alg), DigestSize(alg);
            index * d == (index / h) * BLOCK_SIZE + (index % h) * d && 0 <= (index % h) * d <= BLOCK_SIZE - d
  {
    if alg.Sha512? { assert HashesPerBlock(alg) == 64; } else { assert HashesPerBlock(alg) == 128; }
  }

  /** So many digests fill so many blocks. */
  lemma BlocksOfDigests(alg: Algorithm, n: nat)
    ensures NumBlocks(n * DigestSize(alg)) == Ceil(n, HashesPerBlock(alg))
  {
    if alg.Sha512? { assert HashesPerBlock(alg) == 64; } else { assert HashesPerBlock(alg) == 128; }
  }
}
