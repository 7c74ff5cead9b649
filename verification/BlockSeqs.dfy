/** Sequences of memory blocks, in their four encodings, seen as sequences of bytes
    in memory, and copying between them. */
module BlockSeqs {
  import opened Words

  /** One byte of memory, and whether it needs safecopy to be accessed. */
  datatype Cell = Cell(addr: int, safecopy: bool)

  datatype Block = Block(start: int, length: nat, needSafecopy: bool) {
    function DropFirst(n: nat): Block {
      if n >= length then NO_BLOCK else Block(start + n, length - n, needSafecopy)
    }

    function TakeFirst(n: nat): Block {
      if n == 0 then NO_BLOCK else if n >= length then this else Block(start, n, needSafecopy)
    }

    /** The bytes the block stands for. */
    function Cells(): (r: seq<Cell>)
      ensures |r| == length
    {
      seq(length, i => Cell(start + i, needSafecopy))
    }
  }

  const NO_BLOCK := Block(0, 0, false)

  function AllCells(blocks: seq<Block>): seq<Cell> {
    if blocks == [] then [] else blocks[0].Cells() + AllCells(blocks[1..])
  }

  lemma BlockParts(b: Block, n: nat)
    ensures b.DropFirst(n).Cells() == if n >= b.length then [] else b.Cells()[n..]
    ensures b.TakeFirst(n).Cells() == if n >= b.length then b.Cells() else b.Cells()[..n]
  {
  }

  /** Length 0 is the empty sequence; -1 and -2 are the one block at start, without
      and with safecopy; otherwise length counts the blocks, of which the limit
      bytes from offset on are meant. */
  datatype BlockSeq = BlockSeq(start: int, blocks: seq<Block>, length: int, offset: nat, limit: nat) {

    /** The representation invariant. */
    ghost predicate Valid() {
      if length == 0 then this == EMPTY
      else if length < 0 then (length == -1 || length == -2) && blocks == [] && offset == 0 && limit > 0
      else
        && length == |blocks| >= 2 && start == 0 && limit > 0
        && offset < blocks[0].length && offset + limit <= |AllCells(blocks)|
    }

    /** The bytes the sequence stands for. */
    ghost function Cells(): (r: seq<Cell>)
      requires Valid()
      ensures |r| == limit
    {
      if length == 0 then []
      else if length < 0 then InternalBlock().Cells()
      else AllCells(blocks)[offset..offset + limit]
    }

    function InternalBlock(): Block { Block(start, limit, length == -2) }

    function Head(): (r: Block)
      requires Valid() && length != 0
      ensures r.length > 0
      ensures r.Cells() <= Cells()
    {
      if length < 0 then InternalBlock()
      else
        HeadCells(blocks, offset, limit);
        blocks[0].DropFirst(offset).TakeFirst(limit)
    }

    function Tail(): (r: BlockSeq)
      requires Valid() && length != 0
      ensures r.Valid() && Cells() == Head().Cells() + r.Cells()
    {
      if length < 0 then
        assert InternalBlock().Cells() + [] == InternalBlock().Cells();
        EMPTY
      else
        var head := blocks[0].DropFirst(offset);
        HeadCells(blocks, offset, limit);
        if head.length >= limit then
          EMPTY
        else
          SkipsNothing(blocks[1..]);
          FromSliceLimited(SkipEmpty(blocks[1..]), limit - head.length)
    }

    /** The first n bytes. */
    function TakeFirst(n: nat): (r: BlockSeq)
      requires Valid()
      ensures r.Valid() && r.Cells() == if n >= limit then Cells() else Cells()[..n]
    {
      if n == 0 then EMPTY
      else if limit > n then
        TakenCells(this, n);
        this.(limit := n)
      else this
    }

    /** All but the first n bytes. */
    method DropFirst(n: nat) returns (r: BlockSeq)
      requires Valid()
      ensures r.Valid() && r.Cells() == if n >= limit then [] else Cells()[n..]
    {
      if n >= limit { return EMPTY; }
      var bs := this;
      var left: nat := n;
      while true
        invariant bs.Valid() && left < bs.limit && left <= n && bs.limit == limit - (n - left)
        invariant bs.Cells() == Cells()[n - left..]
        decreases bs.limit
      {
        var headLen := if bs.length < 0 then bs.limit else bs.blocks[0].length - bs.offset;
        if left < headLen {
          DroppedCells(bs, left);
          if bs.length < 0 { return Of(bs.InternalBlock().DropFirst(left)); }
          return bs.(offset := bs.offset + left, limit := bs.limit - left);
        }
        WholeHead(bs, left);
        left := left - headLen;
        bs := bs.Tail();
      }
    }
  }

  const EMPTY := BlockSeq(0, [], 0, 0, 0)

  /** The sequence of one block. */
  function Of(b: Block): (r: BlockSeq)
    ensures r.Valid() && r.Cells() == b.Cells()
  {
    if b.length == 0 then EMPTY
    else BlockSeq(b.start, [], if b.needSafecopy then -2 else -1, 0, b.length)
  }

  function SkipEmpty(blocks: seq<Block>): (r: seq<Block>)
    ensures r == [] || (r[0].length > 0 && |r| <= |blocks|)
  {
    if blocks == [] then [] else if blocks[0].length != 0 then blocks else SkipEmpty(blocks[1..])
  }

  lemma {:induction false} SkipsNothing(blocks: seq<Block>)
    ensures AllCells(SkipEmpty(blocks)) == AllCells(blocks)
  {
    if blocks != [] && blocks[0].length == 0 {
      SkipsNothing(blocks[1..]);
      assert blocks[0].Cells() == [];
    }
  }

  /** At most limit bytes of blocks of which the first is not empty. */
  function FromSliceLimited(blocks: seq<Block>, limit: nat): (r: BlockSeq)
    requires blocks != [] ==> blocks[0].length > 0 && limit > 0
    requires limit <= |AllCells(blocks)|
    ensures r.Valid() && r.Cells() == AllCells(blocks)[..limit]
  {
    if blocks == [] then EMPTY
    else if |blocks| == 1 then
      OneBlock(blocks[0]);
      BlockParts(blocks[0], limit);
      Of(blocks[0].TakeFirst(limit))
    else BlockSeq(0, blocks, |blocks|, 0, limit)
  }

  lemma OneBlock(b: Block)
    ensures AllCells([b]) == b.Cells()
  {
    assert AllCells([b][1..]) == [];
  }

  /** All blocks of a slice, empty ones skipped. */
  method FromSlice(slice: seq<Block>) returns (r: BlockSeq)
    ensures r.Valid() && r.Cells() == AllCells(slice)
  {
    var blocks := SkipEmpty(slice);
    SkipsNothing(slice);
    var limit, i := 0, 0;
    while i < |blocks|
      invariant 0 <= i <= |blocks| && limit == |AllCells(blocks[..i])|
    {
      CellsNext(blocks, i);
      limit := limit + blocks[i].length;
      i := i + 1;
    }
    assert blocks[..i] == blocks;
    if blocks != [] { CellsNext(blocks, 0); }
    r := FromSliceLimited(blocks, limit);
  }

  lemma {:induction false} CellsConcat(a: seq<Block>, b: seq<Block>)
    ensures AllCells(a + b) == AllCells(a) + AllCells(b)
  {
    if a == [] {
      assert a + b == b;
    } else {
      assert (a + b)[1..] == a[1..] + b;
      CellsConcat(a[1..], b);
    }
  }

  lemma CellsNext(blocks: seq<Block>, i: nat)
    requires i < |blocks|
    ensures |AllCells(blocks[..i + 1])| == |AllCells(blocks[..i])| + blocks[i].length <= |AllCells(blocks)|
  {
    hide AllCells;
    assert blocks[..i + 1] == blocks[..i] + [blocks[i]] && blocks == blocks[..i + 1] + blocks[i + 1..];
    CellsConcat(blocks[..i], [blocks[i]]);
    CellsConcat(blocks[..i + 1], blocks[i + 1..]);
    OneBlock(blocks[i]);
  }

  lemma NoCells()
    ensures AllCells([]) == []
  {
  }

  lemma Window(a: seq<Cell>, rest: seq<Cell>, offset: nat, limit: nat)
    requires offset <= |a| && offset + limit <= |a + rest|
    ensures var n := |a| - offset;
            (a + rest)[offset..offset + limit] ==
              if n >= limit then a[offset..][..limit] else a[offset..] + rest[..limit - n]
  {
  }

  /** The head of a window on some blocks, and what follows it. */
  lemma {:induction false} HeadCells(blocks: seq<Block>, offset: nat, limit: nat)
    requires blocks != [] && offset < blocks[0].length && limit > 0 && offset + limit <= |AllCells(blocks)|
    ensures var head, cells := blocks[0].DropFirst(offset), AllCells(blocks)[offset..offset + limit];
            && head.length == blocks[0].length - offset && head.TakeFirst(limit).length > 0
            && (if head.length >= limit then head.TakeFirst(limit).Cells() == cells
                else && head.TakeFirst(limit) == head && limit - head.length <= |AllCells(blocks[1..])|
                     && cells == head.Cells() + AllCells(blocks[1..])[..limit - head.length]
                     && SkipEmpty(blocks[1..]) != [])
  {
    hide Block.Cells, SkipEmpty;
    var b, rest := blocks[0], AllCells(blocks[1..]);
    var head := b.DropFirst(offset);
    BlockParts(b, offset);
    BlockParts(head, limit);
    assert AllCells(blocks) == b.Cells() + rest;
    hide AllCells;
    Window(b.Cells(), rest, offset, limit);
    SkipsNothing(blocks[1..]);
    NoCells();
  }

  lemma TakenCells(bs: BlockSeq, n: nat)
    requires bs.Valid() && 0 < n < bs.limit
    ensures bs.(limit := n).Valid() && bs.(limit := n).Cells() == bs.Cells()[..n]
  {
    if bs.length > 0 {
      var all := AllCells(bs.blocks);
      assert all[bs.offset..bs.offset + bs.limit][..n] == all[bs.offset..bs.offset + n];
    }
  }

  /** Dropping less than the head only moves the window. */
  lemma DroppedCells(bs: BlockSeq, n: nat)
    requires bs.Valid() && bs.length != 0 && n < bs.limit
    requires bs.length > 0 ==> bs.offset + n < bs.blocks[0].length
    ensures var r := if bs.length < 0 then Of(bs.InternalBlock().DropFirst(n))
              else bs.(offset := bs.offset + n, limit := bs.limit - n);
            r.Valid() && r.Cells() == bs.Cells()[n..]
  {
    if bs.length > 0 {
      var all := AllCells(bs.blocks);
      assert all[bs.offset..bs.offset + bs.limit][n..] == all[bs.offset + n..bs.offset + bs.limit];
    } else {
      BlockParts(bs.InternalBlock(), n);
    }
  }

  /** Dropping more than the head leaves part of the tail. */
  lemma WholeHead(bs: BlockSeq, n: nat)
    requires bs.Valid() && bs.length > 0 && bs.blocks[0].length - bs.offset <= n < bs.limit
    ensures var h := bs.blocks[0].length - bs.offset;
            bs.Head().length == h && bs.Tail().limit == bs.limit - h && bs.Tail().Cells() == bs.Cells()[h..]
  {
    HeadCells(bs.blocks, bs.offset, bs.limit);
    var head, tail := bs.Head(), bs.Tail();
    assert |head.Cells()| + |tail.Cells()| == |bs.Cells()|;
    assert bs.Cells()[head.length..] == tail.Cells();
  }

  // ----- memory -----

  ghost predicate Mapped(m: map<int, u8>, cells: seq<Cell>) { forall i :: 0 <= i < |cells| ==> cells[i].addr in m }

  /** No byte of dst is a byte of src or twice in dst. */
  ghost predicate Disjoint(dst: seq<Cell>, src: seq<Cell>) {
    && (forall i, j :: 0 <= i < |dst| && 0 <= j < |src| ==> dst[i].addr != src[j].addr)
    && (forall i, j :: 0 <= i < j < |dst| ==> dst[i].addr != dst[j].addr)
  }

  /** New is old with the first n bytes of src copied to those of dst. */
  ghost predicate Copied(before: map<int, u8>, after: map<int, u8>, dst: seq<Cell>, src: seq<Cell>, n: nat)
    requires n <= |dst| && n <= |src| && Mapped(before, dst) && Mapped(before, src)
  {
    && after.Keys == before.Keys
    && (forall i :: 0 <= i < n ==> after[dst[i].addr] == before[src[i].addr])
    && forall a :: a in before && (forall i :: 0 <= i < n ==> dst[i].addr != a) ==> after[a] == before[a]
  }

  function Min(a: nat, b: nat): nat { if a < b then a else b }

  class Memory {
    var m: map<int, u8>

    /** Copy one block into another, as far as both go. */
    method Copy(dst: Block, src: Block) returns (n: nat)
      requires Mapped(m, dst.Cells()) && Mapped(m, src.Cells()) && Disjoint(dst.Cells(), src.Cells())
      modifies this
      ensures n == Min(dst.length, src.length) && Mapped(old(m), dst.Cells()) && Mapped(old(m), src.Cells())
      ensures Copied(old(m), m, dst.Cells(), src.Cells(), n)
    {
      n := Min(dst.length, src.length);
      ghost var before, ds, ss := m, dst.Cells(), src.Cells();
      var i := 0;
      while i < n
        invariant 0 <= i <= n && Copied(before, m, ds, ss, i)
      {
        assert ds[i].addr == dst.start + i && ss[i].addr == src.start + i;
        m := m[dst.start + i := m[src.start + i]];
        i := i + 1;
      }
    }

    /** Copy one sequence to another, as far as both go. */
    method CopySeq(dst: BlockSeq, src: BlockSeq) returns (done: nat)
      requires dst.Valid() && src.Valid() && Mapped(m, dst.Cells()) && Mapped(m, src.Cells())
      requires Disjoint(dst.Cells(), src.Cells())
      modifies this
      ensures done == Min(dst.limit, src.limit) && Mapped(old(m), dst.Cells()) && Mapped(old(m), src.Cells())
      ensures Copied(old(m), m, dst.Cells(), src.Cells(), done)
    {
      hide Copied, Disjoint, Mapped, BlockSeq.Cells, Block.Cells, BlockSeq.Head, BlockSeq.Tail;
      var dsts, srcs := dst, src;
      ghost var before, ds, ss := m, dst.Cells(), src.Cells();
      done := 0;
      NothingCopied(m, ds, ss);
      while dsts.length != 0 && srcs.length != 0
        invariant dsts.Valid() && srcs.Valid() && done + dsts.limit == dst.limit && done + srcs.limit == src.limit
        invariant dsts.Cells() == ds[done..] && srcs.Cells() == ss[done..]
        invariant Copied(before, m, ds, ss, done)
        decreases dsts.limit
      {
        var d, s := dsts.Head(), srcs.Head();
        Heads(before, m, ds, ss, done, d.Cells(), s.Cells());
        ghost var mid := m;
        var n := Copy(d, s);
        MoreCopied(before, mid, m, ds, ss, done, d.Cells(), s.Cells(), n);
        DropMore(ds, done, n);
        DropMore(ss, done, n);
        dsts := dsts.DropFirst(n);
        srcs := srcs.DropFirst(n);
        done := done + n;
      }
    }

    method Zero(dst: Block) returns (n: nat)
      requires Mapped(m, dst.Cells())
      modifies this
      ensures n == dst.length && m.Keys == old(m).Keys
      ensures forall a :: a in m ==> m[a] == if dst.start <= a < dst.start + dst.length then 0 else old(m)[a]
    {
      n := 0;
      while n < dst.length
        invariant n <= dst.length && m.Keys == old(m).Keys
        invariant forall a :: a in m ==> m[a] == if dst.start <= a < dst.start + n then 0 else old(m)[a]
      {
        assert dst.Cells()[n].addr == dst.start + n;
        m := m[dst.start + n := 0];
        n := n + 1;
      }
    }
  }

  lemma DropMore(s: seq<Cell>, a: nat, n: nat)
    requires a + n <= |s|
    ensures s[a..][n..] == s[a + n..]
  {
  }

  lemma NothingCopied(m: map<int, u8>, dst: seq<Cell>, src: seq<Cell>)
    requires Mapped(m, dst) && Mapped(m, src)
    ensures Copied(m, m, dst, src, 0)
  {
  }

  /** The next blocks of both sequences are mapped and apart. */
  lemma Heads(before: map<int, u8>, m: map<int, u8>, dst: seq<Cell>, src: seq<Cell>, done: nat, d: seq<Cell>,
              s: seq<Cell>)
    requires done <= |dst| && done <= |src| && Mapped(before, dst) && Mapped(before, src) && Disjoint(dst, src)
    requires Copied(before, m, dst, src, done) && d <= dst[done..] && s <= src[done..]
    ensures Mapped(m, d) && Mapped(m, s) && Disjoint(d, s)
  {
    forall i | 0 <= i < |d| ensures d[i] == dst[done + i] {}
    forall i | 0 <= i < |s| ensures s[i] == src[done + i] {}
  }

  lemma MoreCopied(before: map<int, u8>, mid: map<int, u8>, after: map<int, u8>, dst: seq<Cell>, src: seq<Cell>,
                   done: nat,
                   d: seq<Cell>, s: seq<Cell>, n: nat)
    requires done + n <= |dst| && done + n <= |src| && Mapped(before, dst) && Mapped(before, src) && Disjoint(dst, src)
    requires Copied(before, mid, dst, src, done) && d <= dst[done..] && s <= src[done..] && n <= |d| && n <= |s|
    requires Mapped(mid, d) && Mapped(mid, s) && Copied(mid, after, d, s, n)
    ensures Copied(before, after, dst, src, done + n)
  {
    forall i | 0 <= i < |d| ensures d[i] == dst[done + i] {}
    forall i | 0 <= i < |s| ensures s[i] == src[done + i] {}
    forall i | 0 <= i < done + n ensures after[dst[i].addr] == before[src[i].addr] {
      if i < done {
        assert forall j :: 0 <= j < n ==> d[j].addr != dst[i].addr;
      } else {
        assert dst[i] == d[i - done] && src[i] == s[i - done];
        assert mid[src[i].addr] == before[src[i].addr];
      }
    }
    forall a | a in before && (forall i :: 0 <= i < done + n ==> dst[i].addr != a) ensures after[a] == before[a] {
      forall j | 0 <= j < n ensures d[j].addr != a { assert d[j] == dst[done + j]; }
    }
  }
}
