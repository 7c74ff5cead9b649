/** The Merkle tree of a file, and how it is generated. */
module MerkleTree {
  import opened Words
  import opened MerkleLayout

  function Zeros(n: nat): (r: Bytes)
    ensures |r| == n
  {
    seq(n, i => 0)
  }

  /** What ReadAt gives of so many bytes at off: as many as there are. */
  function ReadAt(file: Bytes, off: nat, n: nat): (r: Bytes)
    ensures |r| <= n
  {
    if off >= |file| then [] else if off + n <= |file| then file[off..off + n] else file[off..]
  }

  function ZeroPadded(s: Bytes): (r: Bytes)
    requires |s| <= BLOCK_SIZE
    ensures |r| == BLOCK_SIZE
  {
    s + Zeros(BLOCK_SIZE - |s|)
  }

  /** Block i of some bytes, the last padded with zeros. */
  function BlockAt(s: Bytes, i: nat): (r: Bytes)
    ensures |r| == BLOCK_SIZE
  {
    ZeroPadded(ReadAt(s, i * BLOCK_SIZE, BLOCK_SIZE))
  }

  /** Bytes padded to full blocks. */
  function Padded(s: Bytes): (r: Bytes)
    ensures |r| == BLOCK_SIZE * NumBlocks(|s|) && s <= r
  {
    PaddedSize(|s|);
    s + Zeros(BLOCK_SIZE * NumBlocks(|s|) - |s|)
  }

  lemma PaddedBlock(s: Bytes, i: nat)
    requires i < NumBlocks(|s|)
    ensures (i + 1) * BLOCK_SIZE <= |Padded(s)| && BlockAt(s, i) == Padded(s)[i * BLOCK_SIZE..(i + 1) * BLOCK_SIZE]
  {
  }

  // ----- hashes -----

  /** Any hash functions with digests of the right sizes. */
  type Hash = (Algorithm, Bytes) -> Bytes

  ghost predicate IsHash(H: Hash) { forall alg, x :: |H(alg, x)| == DigestSize(alg) }

  /** The digests of the first n blocks of s, one after the other. */
  function HashBlocks(H: Hash, alg: Algorithm, s: Bytes, n: nat): Bytes {
    if n == 0 then [] else HashBlocks(H, alg, s, n - 1) + H(alg, BlockAt(s, n - 1))
  }

  /** What level k hashes: the data, or the level below. */
  function Below(H: Hash, alg: Algorithm, data: Bytes, k: nat): Bytes {
    if k == 0 then data else var lower := Below(H, alg, data, k - 1); HashBlocks(H, alg, lower, NumBlocks(|lower|))
  }

  /** The digests of level k. */
  function Level(H: Hash, alg: Algorithm, data: Bytes, k: nat): Bytes { Below(H, alg, data, k + 1) }

  lemma {:induction false} HashBlocksLength(H: Hash, alg: Algorithm, s: Bytes, n: nat)
    requires IsHash(H)
    ensures |HashBlocks(H, alg, s, n)| == n * DigestSize(alg)
  {
    if n > 0 { HashBlocksLength(H, alg, s, n - 1); }
  }

  /** Digest i is that of block i. */
  lemma {:induction false} HashBlocksAt(H: Hash, alg: Algorithm, s: Bytes, n: nat, i: nat)
    requires IsHash(H) && i < n
    ensures ReadAt(HashBlocks(H, alg, s, n), i * DigestSize(alg), DigestSize(alg)) == H(alg, BlockAt(s, i))
  {
    var d := DigestSize(alg);
    var all, prev := HashBlocks(H, alg, s, n), HashBlocks(H, alg, s, n - 1);
    HashBlocksLength(H, alg, s, n - 1);
    if i < n - 1 {
      HashBlocksAt(H, alg, s, n - 1, i);
      assert (i + 1) * d <= (n - 1) * d;
      assert all[i * d..i * d + d] == prev[i * d..i * d + d];
    }
  }

  /** The blocks below level k are as many as its digests. */
  lemma {:induction false} BelowBlocks(H: Hash, alg: Algorithm, data: Bytes, k: nat)
    requires IsHash(H)
    ensures NumBlocks(|Below(H, alg, data, k)|) == Digests(NumBlocks(|data|), alg, k)
  {
    if k > 0 {
      BelowBlocks(H, alg, data, k - 1);
      var lower := Below(H, alg, data, k - 1);
      hide NumBlocks, Ceil, HashesPerBlock, DigestSize;
      HashBlocksLength(H, alg, lower, NumBlocks(|lower|));
      BlocksOfDigests(alg, NumBlocks(|lower|));
    }
  }

  /** The levels below k, each padded to full blocks. */
  function Written(H: Hash, alg: Algorithm, data: Bytes, k: nat): Bytes {
    if k == 0 then [] else Written(H, alg, data, k - 1) + Padded(Level(H, alg, data, k - 1))
  }

  /** Everything that is written: padding for the data where the tree follows it,
      then the levels, all but the root padded. */
  function TreeFile(H: Hash, alg: Algorithm, data: Bytes, sameFile: bool): Bytes {
    var root := Height(|data|, alg) - 1;
    (if sameFile then Padded(data)[|data|..] else []) + Written(H, alg, data, root) + Level(H, alg, data, root)
  }

  /** Every level is written where the layout says. */
  lemma {:induction false} WrittenLength(H: Hash, alg: Algorithm, data: Bytes, sameFile: bool, k: nat)
    requires IsHash(H)
    ensures TreeStart(|data|, sameFile) + |Written(H, alg, data, k)| == LevelOffset(|data|, alg, sameFile, k)
  {
    if k > 0 {
      WrittenLength(H, alg, data, sameFile, k - 1);
      BelowBlocks(H, alg, data, k);
    }
  }

  // ----- generating -----

  /** What a file's hash covers besides its content. */
  datatype Metadata = Metadata(name: string, mode: nat, uid: nat, gid: nat, children: set<string>)

  datatype Descriptor = Descriptor(meta: Metadata, fileSize: nat, rootHash: Bytes)

  type Encoding = Descriptor -> Bytes

  function RootHash(H: Hash, alg: Algorithm, data: Bytes): Bytes { Level(H, alg, data, Height(|data|, alg) - 1) }

  function DescriptorOf(H: Hash, alg: Algorithm, data: Bytes, meta: Metadata): Descriptor {
    Descriptor(meta, |data|, RootHash(H, alg, data))
  }

  /** The hash of a file: that of its descriptor. */
  function FileHash(H: Hash, encode: Encoding, alg: Algorithm, data: Bytes, meta: Metadata): Bytes {
    H(alg, encode(DescriptorOf(H, alg, data, meta)))
  }

  lemma ReadMiddle(a: Bytes, p: Bytes, more: Bytes, off: nat, n: nat)
    requires off + n <= |p| && n > 0
    ensures ReadAt(a + p + more, |a| + off, n) == p[off..off + n]
  {
    var s := a + p + more;
    assert s[|a| + off..|a| + off + n] == p[off..off + n];
  }

  /** What is in the file before the tree, once the data is padded. */
  function Front(data: Bytes, sameFile: bool): (r: Bytes)
    ensures |r| == TreeStart(|data|, sameFile)
  {
    if sameFile then Padded(data) else []
  }

  /** A block of an earlier level, read back from the tree file. */
  lemma ReadsBack(H: Hash, alg: Algorithm, data: Bytes, sameFile: bool, k: nat, i: nat, more: Bytes)
    requires IsHash(H) && i < Digests(NumBlocks(|data|), alg, k + 1)
    ensures ReadAt(Front(data, sameFile) + Written(H, alg, data, k + 1) + more,
                   LevelOffset(|data|, alg, sameFile, k) + i * BLOCK_SIZE, BLOCK_SIZE)
            == BlockAt(Below(H, alg, data, k + 1), i)
  {
    var level := Level(H, alg, data, k);
    hide NumBlocks, Ceil, Digests, HashBlocks, LevelOffset, Below, ReadAt, BlockAt, TreeStart, Front;
    BelowBlocks(H, alg, data, k + 1);
    PaddedBlock(level, i);
    WrittenLength(H, alg, data, sameFile, k);
    var a := Front(data, sameFile) + Written(H, alg, data, k);
    ReadMiddle(a, Padded(level), more, i * BLOCK_SIZE, BLOCK_SIZE);
    assert Front(data, sameFile) + Written(H, alg, data, k + 1) == a + Padded(level);
  }

  /** A block of the data, read from the file it shares with its tree or not. */
  lemma ReadsData(data: Bytes, sameFile: bool, i: nat, more: Bytes)
    requires i < NumBlocks(|data|)
    ensures var file := if sameFile then Padded(data) + more else data;
            && ReadAt(file, i * BLOCK_SIZE, BLOCK_SIZE) != []
            && ZeroPadded(ReadAt(file, i * BLOCK_SIZE, BLOCK_SIZE)) == BlockAt(data, i)
  {
    if sameFile {
      PaddedBlock(data, i);
      ReadMiddle([], Padded(data), more, i * BLOCK_SIZE, BLOCK_SIZE);
      assert [] + Padded(data) + more == Padded(data) + more;
    }
  }

  /** The zeros that complete the last block of n digests. */
  lemma LevelPadding(alg: Algorithm, n: nat)
    ensures var h, d := HashesPerBlock(alg), DigestSize(alg);
            BLOCK_SIZE * NumBlocks(n * d) - n * d == if n % h == 0 then 0 else BLOCK_SIZE - (n % h) * d
  {
    BlocksOfDigests(alg, n);
    if alg.Sha512? { LevelPadding64(n); } else { LevelPadding128(n); }
  }

  lemma LevelPadding64(n: nat)
    ensures 4096 * ((n + 63) / 64) - n * 64 == if n % 64 == 0 then 0 else 4096 - (n % 64) * 64
  {
    var q, r := n / 64, n % 64;
    assert n == 64 * q + r;
  }

  lemma LevelPadding128(n: nat)
    ensures 4096 * ((n + 127) / 128) - n * 32 == if n % 128 == 0 then 0 else 4096 - (n % 128) * 32
  {
    var q, r := n / 128, n % 128;
    assert n == 128 * q + r;
  }

  function DataPadding(data: Bytes, sameFile: bool): Bytes { if sameFile then Padded(data)[|data|..] else [] }

  /** The tree file after out has been written to it. */
  function FileWith(data: Bytes, sameFile: bool, out: Bytes): Bytes { if sameFile then data + out else out }

  lemma FileWithFront(data: Bytes, sameFile: bool, w: Bytes)
    ensures FileWith(data, sameFile, DataPadding(data, sameFile) + w) == Front(data, sameFile) + w
  {
    if sameFile { assert data + Padded(data)[|data|..] == Padded(data); }
  }

  /** Block i of what level k hashes, as it is read while the level is written. */
  method ReadBlock(H: Hash, alg: Algorithm, data: Bytes, sameFile: bool, layout: Layout, level: nat, i: nat, out: Bytes,
                   ghost more: Bytes)
    returns (buf: Bytes, n: nat)
    requires IsHash(H) && Describes(layout, |data|, alg, sameFile) && level < |layout.levelOffset|
    requires i < Digests(NumBlocks(|data|), alg, level)
    requires out == DataPadding(data, sameFile) + Written(H, alg, data, level) + more
    ensures n > 0 && buf == BlockAt(Below(H, alg, data, level), i)
  {
    ghost var w := Written(H, alg, data, level) + more;
    hide NumBlocks, Ceil, Written, HashBlocks, LevelOffset, TreeStart, Padded, Height, Levels;
    assert out == DataPadding(data, sameFile) + w;
    FileWithFront(data, sameFile, w);
    var bytes;
    if level == 0 {
      bytes := ReadAt(if sameFile then data + out else data, i * BLOCK_SIZE, BLOCK_SIZE);
      ReadsData(data, sameFile, i, w);
    } else {
      bytes := ReadAt(FileWith(data, sameFile, out), BlockOffset(layout, level - 1, i), BLOCK_SIZE);
      ReadsBack(H, alg, data, sameFile, level - 1, i, more);
      assert Front(data, sameFile) + Written(H, alg, data, level) + more == Front(data, sameFile) + w;
    }
    n := |bytes|;
    buf := ZeroPadded(bytes);
    assert level > 0 ==> n == BLOCK_SIZE && buf == bytes;
  }

  /** The digests of one level are appended, and the last one is kept. */
  method WriteLevel(H: Hash, alg: Algorithm, data: Bytes, sameFile: bool, layout: Layout, level: nat, numBlocks: nat,
                    start: Bytes)
    returns (out: Bytes, last: Bytes)
    requires IsHash(H) && Describes(layout, |data|, alg, sameFile) && level < |layout.levelOffset|
    requires numBlocks == Digests(NumBlocks(|data|), alg, level)
    requires start == DataPadding(data, sameFile) + Written(H, alg, data, level)
    ensures out == start + Level(H, alg, data, level)
    ensures numBlocks == 0 ==> last == []
    ensures numBlocks == 1 ==> last == Level(H, alg, data, level)
  {
    ghost var input := Below(H, alg, data, level);
    out, last := start, [];
    hide Written, Describes, Digests, NumBlocks, DataPadding, BlockAt;
    BelowBlocks(H, alg, data, level);
    var i := 0;
    while i < numBlocks
      invariant 0 <= i <= numBlocks
      invariant out == start + HashBlocks(H, alg, input, i)
      invariant i == 0 ==> last == []
      invariant i == 1 ==> last == HashBlocks(H, alg, input, 1)
    {
      var buf, n := ReadBlock(H, alg, data, sameFile, layout, level, i, out, HashBlocks(H, alg, input, i));
      if n == 0 { break; }
      last := H(alg, buf);
      assert i == 0 ==> HashBlocks(H, alg, input, 1) == [] + last;
      assert out + last == start + (HashBlocks(H, alg, input, i) + last);
      out := out + last;
      i := i + 1;
    }
  }

  /** Writes all levels behind the padding, and gives the root. */
  method WriteLevels(H: Hash, alg: Algorithm, data: Bytes, sameFile: bool, layout: Layout, padding: Bytes)
    returns (out: Bytes, root: Bytes)
    requires IsHash(H) && Describes(layout, |data|, alg, sameFile) && padding == DataPadding(data, sameFile)
    ensures root == RootHash(H, alg, data) && out == TreeFile(H, alg, data, sameFile)
  {
    var numBlocks := NumBlocks(|data|);
    var level := 0;
    var height := |layout.levelOffset|;
    out, root := padding, [];
    assert Digests(NumBlocks(|data|), alg, 0) == numBlocks && Written(H, alg, data, 0) == [];
    hide NumBlocks, Padded, Level, Digests, Levels, HashesPerBlock, DigestSize, Ceil, LevelOffset, Written;
    while level < height
      invariant 0 <= level <= height
      invariant level < height ==> numBlocks == Digests(NumBlocks(|data|), alg, level)
      invariant level < height ==> out == padding + Written(H, alg, data, level)
      invariant level == height ==> out == padding + Written(H, alg, data, height - 1) + Level(H, alg, data, height - 1)
      invariant level == height ==> root == Level(H, alg, data, height - 1)
    {
      OneRoot(NumBlocks(|data|), alg, level);
      var start := out;
      out, root := WriteLevel(H, alg, data, sameFile, layout, level, numBlocks, out);
      if level + 1 < height {
        out := PadLevel(H, alg, data, level, numBlocks, padding, start, out);
      } else if numBlocks == 0 {
        EmptyRoot(H, alg, data, level);
      }
      numBlocks := Ceil(numBlocks, HashesPerBlock(alg));
      NextDigests(NumBlocks(|data|), alg, level);
      level := level + 1;
    }
  }

  /** Builds the tree and hashes the descriptor. */
  method Generate(H: Hash, encode: Encoding, data: Bytes, meta: Metadata, alg: Algorithm, sameFile: bool)
    returns (r: Option<Bytes>, out: Bytes)
    requires IsHash(H)
    ensures r.None? <==> alg.OtherAlgorithm?
    ensures r.Some? ==> r.value == FileHash(H, encode, alg, data, meta) && out == TreeFile(H, alg, data, sameFile)
  {
    var init := InitLayout(|data|, alg, sameFile);
    if init.None? { return None, []; }
    var padding: Bytes := [];
    if sameFile && |data| % BLOCK_SIZE != 0 { padding := Zeros(BLOCK_SIZE - |data| % BLOCK_SIZE); }
    PaddedSize(|data|);
    assert padding == DataPadding(data, sameFile);
    hide DataPadding, Describes, TreeFile, Padded, RootHash;
    var root;
    out, root := WriteLevels(H, alg, data, sameFile, init.value, padding);
    r := Some(H(alg, encode(Descriptor(meta, |data|, root))));
  }

  lemma NextDigests(n: nat, alg: Algorithm, k: nat)
    ensures Digests(n, alg, k + 1) == Ceil(Digests(n, alg, k), HashesPerBlock(alg))
  {
  }

  lemma EmptyRoot(H: Hash, alg: Algorithm, data: Bytes, k: nat)
    requires Digests(NumBlocks(|data|), alg, k) == 0 && IsHash(H)
    ensures Level(H, alg, data, k) == []
  {
    BelowBlocks(H, alg, data, k);
  }

  /** The zeros after a level below the root. */
  method PadLevel(H: Hash, alg: Algorithm, data: Bytes, level: nat, numBlocks: nat, ghost padding: Bytes,
                  ghost start: Bytes, out: Bytes)
    returns (padded: Bytes)
    requires IsHash(H) && numBlocks == Digests(NumBlocks(|data|), alg, level)
    requires start == padding + Written(H, alg, data, level) && out == start + Level(H, alg, data, level)
    ensures padded == padding + Written(H, alg, data, level + 1)
  {
    var h, d := HashesPerBlock(alg), DigestSize(alg);
    ghost var digests := Level(H, alg, data, level);
    LevelPadding(alg, numBlocks);
    BelowBlocks(H, alg, data, level);
    HashBlocksLength(H, alg, Below(H, alg, data, level), numBlocks);
    padded := out;
    if numBlocks % h != 0 { padded := padded + Zeros(BLOCK_SIZE - (numBlocks % h) * d); }
    assert padded == start + Padded(digests);
  }
}
