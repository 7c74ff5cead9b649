/** Inserting and removing one segment of a tree. */
module SegmentTree {
  import opened SegmentList
  import opened SegmentNode
  import opened SegmentInsert
  import opened SegmentGaps
  import opened SegmentRemove

  /** An empty tree, whose gap may be out of date, or a sound one. */
  ghost predicate Good(t: Tree, p: int, q: int) {
    (t.h == 0 && t.root.segs == [] && t.root.kids == []) || SoundTree(t, p, q)
  }

  ghost function Segments(t: Tree): seq<Segment> { Flatten(t.root, t.h) }

  /** C is the gap that has j segments before it. */
  ghost predicate GapAt(t: Tree, c: Coord, j: nat) { At(t.root, t.h, c) && |Before(t.root, t.h, c)| == j }

  lemma BeforeIsPrefix(n: Node, h: nat, c: Coord)
    requires At(n, h, c)
    ensures |Before(n, h, c)| <= |Flatten(n, h)| && Before(n, h, c) == Flatten(n, h)[..|Before(n, h, c)|]
  {
    FlattenAtLeaf(n, h, c);
  }

  // ----- inserting -----

  /** InsertWithoutMergingUnchecked: make room, then insert in the leaf. */
  function Inserted(t: Tree, p: int, q: int, c: Coord, s: Segment): (Tree, Coord)
    requires At(t.root, t.h, c) && Slim(t.root, t.h, c)
  {
    RoomInTreeAt(t, p, q, c);
    var (u, d) := RoomInTree(t, p, q, c);
    (u.(root := InsertInLeaf(u.root, u.h, p, q, d, s)), d)
  }

  lemma RoomInTreeAt(t: Tree, p: int, q: int, c: Coord)
    requires At(t.root, t.h, c) && Slim(t.root, t.h, c)
    ensures var (u, d) := RoomInTree(t, p, q, c); At(u.root, u.h, d)
  {
    RoomAt(t.root, t.h, p, q, c);
    match Room(t.root, t.h, p, q, c)
    case One(x, d) =>
    case Two(l, m, r, right, d) => assert ([if right then 1 else 0] + d)[1..] == d;
  }

  ghost predicate RoomyAt(r: Roomy, h: nat) {
    if r.One? then At(r.n, h, r.c) else At(if r.right then r.r else r.l, h, r.c)
  }

  lemma {:induction false} RoomAt(n: Node, h: nat, p: int, q: int, c: Coord)
    requires At(n, h, c) && Slim(n, h, c)
    ensures RoomyAt(Room(n, h, p, q, c), h)
    decreases h
  {
    if h > 0 {
      var i := c[0];
      RoomAt(n.kids[i], h - 1, Low(n.segs, i, p), High(n.segs, i, q), c[1..]);
      RoomOverAt(n, h, p, q, i, Room(n.kids[i], h - 1, Low(n.segs, i, p), High(n.segs, i, q), c[1..]));
    }
  }

  lemma RoomOverAt(n: Node, h: nat, p: int, q: int, i: nat, below: Roomy)
    requires h > 0 && i < |n.kids| == |n.segs| + 1 <= MAX_DEGREE
    requires RoomyAt(below, h - 1)
    ensures RoomyAt(RoomOver(n, h, p, q, i, below), h)
  {
    hide MaxGap, KidsGap;
    match below
    case One(x, d) => assert ([i] + d)[1..] == d;
    case Two(l, m, r, right, d) =>
      var j := if right then i + 1 else i;
      assert ([j] + d)[1..] == d;
      if |n.segs| == MAX_DEGREE - 1 && i >= MIN_DEGREE { assert ([j - MIN_DEGREE] + d)[1..] == d; }
  }

  /** The ends of the gap at c, in the leaf and in the list. */
  lemma {:induction false} GapEnds(n: Node, h: nat, p: int, q: int, c: Coord)
    requires At(n, h, c)
    ensures var j := |Before(n, h, c)|;
            && j <= |Flatten(n, h)|
            && GapStart(LeafAt(n, h, c).segs, c[h], LeafLow(n, h, p, c)) == GapStart(Flatten(n, h), j, p)
            && GapEnd(LeafAt(n, h, c).segs, c[h], LeafHigh(n, h, q, c)) == GapEnd(Flatten(n, h), j, q)
    decreases h
  {
    BeforeIsPrefix(n, h, c);
    if h > 0 {
      hide Prefix, Suffix, Weave;
      var i, l := c[0], Flatten(n, h);
      var x := n.kids[i];
      var lo, hi := Low(n.segs, i, p), High(n.segs, i, q);
      var a, m := Prefix(n.segs[..i], n.kids[..i], h - 1), Flatten(x, h - 1);
      var b := Suffix(n.segs[i..], n.kids[i + 1..], h - 1);
      var k := |Before(x, h - 1, c[1..])|;
      GapEnds(x, h - 1, lo, hi, c[1..]);
      KidFlatten(n, h, i, x);
      assert l == a + m + b && |Before(n, h, c)| == |a| + k;
      PrefixEnd(n.segs[..i], n.kids[..i], h - 1);
      SuffixStart(n.segs[i..], n.kids[i + 1..], h - 1);
      GapInMiddle(a, m, b, k, p, q, lo, hi);
    }
  }

  lemma PrefixEnd(segs: seq<Segment>, kids: seq<Node>, h: nat)
    requires |kids| == |segs|
    ensures segs == [] ==> Prefix(segs, kids, h) == []
    ensures segs != [] ==>
              Prefix(segs, kids, h) != [] && Prefix(segs, kids, h)[|Prefix(segs, kids, h)| - 1] == segs[|segs| - 1]
  {
    if segs != [] {
      var m := |segs| - 1;
      assert segs == segs[..m] + [segs[m]] && kids == kids[..m] + [kids[m]];
      PrefixJoin(segs[..m], kids[..m], [segs[m]], [kids[m]], h);
      PrefixOne(segs[m], kids[m], h);
    }
  }

  lemma SuffixStart(segs: seq<Segment>, kids: seq<Node>, h: nat)
    requires |kids| == |segs|
    ensures segs == [] ==> Suffix(segs, kids, h) == []
    ensures segs != [] ==> Suffix(segs, kids, h) != [] && Suffix(segs, kids, h)[0] == segs[0]
  {
  }

  lemma GapInMiddle(a: seq<Segment>, m: seq<Segment>, b: seq<Segment>, k: nat, p: int, q: int, lo: int, hi: int)
    requires k <= |m| && lo == (if a == [] then p else a[|a| - 1].end) && hi == (if b == [] then q else b[0].start)
    ensures GapStart(a + m + b, |a| + k, p) == GapStart(m, k, lo)
    ensures GapEnd(a + m + b, |a| + k, q) == GapEnd(m, k, hi)
  {
  }

  /** The new segment is where the gap was, nothing else has changed, and the tree
      is sound again, its cached gaps included. */
  lemma InsertedIsGood(t: Tree, p: int, q: int, c: Coord, s: Segment)
    requires Good(t, p, q) && At(t.root, t.h, c)
    requires var l, j := Segments(t), |Before(t.root, t.h, c)|;
             j <= |l| && GapStart(l, j, p) <= s.start <= s.end <= GapEnd(l, j, q)
    ensures Slim(t.root, t.h, c)
    ensures var (u, d) := Inserted(t, p, q, c, s);
            var l, j := Segments(t), |Before(t.root, t.h, c)|;
            && j <= |l| && SoundTree(u, p, q) && Segments(u) == l[..j] + [s] + l[j..]
            && GapAt(u, d, j) && d[u.h] < LeafSize(u.root, u.h, d)
  {
    hide Sound, RoomInTree, InsertInLeaf, Along;
    BeforeIsPrefix(t.root, t.h, c);
    GapEnds(t.root, t.h, p, q, c);
    FlattenAtLeaf(t.root, t.h, c);
    if t.h == 0 && t.root.segs == [] {
      EmptyAlong(t, p, q, c);
      EmptyRoom(t, p, q, c);
      InsertInLeafIsExact(t.root, 0, p, q, c, s);
      SoundAlong(InsertInLeaf(t.root, 0, p, q, c, s), 0, p, q, c);
    } else {
      RoomInTreeIsMade(t, p, q, c);
      var (u, d) := RoomInTree(t, p, q, c);
      AlongSound(u.root, u.h, p, q, d);
      GapEnds(u.root, u.h, p, q, d);
      FlattenAtLeaf(u.root, u.h, d);
      InsertInLeafIsExact(u.root, u.h, p, q, d, s);
      LeafIsLarge(u.root, u.h, p, q, d);
      SoundAlong(InsertInLeaf(u.root, u.h, p, q, d, s), u.h, p, q, d);
    }
  }

  lemma EmptyRoom(t: Tree, p: int, q: int, c: Coord)
    requires At(t.root, t.h, c) && t.h == 0 && t.root.segs == []
    ensures Slim(t.root, t.h, c) && RoomInTree(t, p, q, c) == (t, c)
  {
  }

  lemma EmptyAlong(t: Tree, p: int, q: int, c: Coord)
    requires Good(t, p, q) && At(t.root, t.h, c) && t.h == 0
    ensures Along(t.root, 0, p, q, c)
  {
  }

  /** Every leaf below the root has enough segments. */
  lemma {:induction false} LeafIsLarge(n: Node, h: nat, p: int, q: int, c: Coord)
    requires Sound(n, h, p, q) && At(n, h, c)
    ensures h > 0 ==> LeafSize(n, h, c) >= MIN_DEGREE - 1
    decreases h
  {
    if h > 0 {
      KidIsSound(n, h, p, q, c[0]);
      LeafIsLarge(n.kids[c[0]], h - 1, Low(n.segs, c[0], p), High(n.segs, c[0], q), c[1..]);
    }
  }

  // ----- removing from a leaf -----

  /** The segment after the gap at c leaves its leaf, and the gaps are updated. */
  function TakeFromLeaf(n: Node, h: nat, p: int, q: int, c: Coord): Node
    requires At(n, h, c) && Along(n, h, p, q, c) && c[h] < LeafSize(n, h, c)
  {
    FlattenAtLeaf(n, h, c);
    LeafIsSmall(n, h, p, q, c);
    var segs, j := LeafAt(n, h, c).segs, c[h];
    assert c[..h] + [j] == c;
    SetLeafAlong(n, h, p, q, c, segs[..j] + segs[j + 1..], j);
    Refresh(SetLeaf(n, h, c, segs[..j] + segs[j + 1..]), h, p, q, c).0
  }

  lemma {:induction false} LeafIsSmall(n: Node, h: nat, p: int, q: int, c: Coord)
    requires At(n, h, c) && Along(n, h, p, q, c)
    ensures LeafSize(n, h, c) < MAX_DEGREE
    decreases h
  {
    if h > 0 { LeafIsSmall(n.kids[c[0]], h - 1, Low(n.segs, c[0], p), High(n.segs, c[0], q), c[1..]); }
  }

  lemma LeafLost(n: Node, h: nat, p: int, q: int, c: Coord)
    requires At(n, h, c) && Along(n, h, p, q, c) && c[h] < LeafSize(n, h, c)
    ensures var y, l, k := TakeFromLeaf(n, h, p, q, c), Flatten(n, h), |Before(n, h, c)|;
            && At(y, h, c) && Along(y, h, p, q, c) && LeafExact(y, h, p, q, c)
            && LeafSize(y, h, c) == LeafSize(n, h, c) - 1 && (h > 0 ==> y.segs == n.segs)
            && k < |l| && Flatten(y, h) == l[..k] + l[k + 1..] && |Before(y, h, c)| == k
  {
    hide Along;
    LeafIsSmall(n, h, p, q, c);
    FlattenAtLeaf(n, h, c);
    var leaf, j := LeafAt(n, h, c), c[h];
    var segs := leaf.segs[..j] + leaf.segs[j + 1..];
    var x := SetLeaf(n, h, c, segs);
    assert c[..h] + [j] == c;
    SetLeafAlong(n, h, p, q, c, segs, j);
    FlattenAtLeaf(x, h, c);
    RefreshIsExact(x, h, p, q, c);
    RemovedList(BeforeLeaf(n, h, c), leaf.segs, AfterLeaf(n, h, c), j);
  }

  /** Removing from a leaf: take the segment out, and mend the tree. */
  function RemovedFromLeaf(t: Tree, p: int, q: int, c: Coord): (Tree, Coord)
    requires At(t.root, t.h, c) && Along(t.root, t.h, p, q, c) && c[t.h] < LeafSize(t.root, t.h, c)
    requires t.h > 0 ==> t.root.segs != [] && LeafSize(t.root, t.h, c) >= MIN_DEGREE - 1
  {
    LeafLost(t.root, t.h, p, q, c);
    var (x, d) := Mend(TakeFromLeaf(t.root, t.h, p, q, c), t.h, p, q, c);
    if t.h > 0 && x.segs == [] then (Tree(x.kids[0].(gap := x.gap), t.h - 1), d[1..]) else (Tree(x, t.h), d)
  }

  /** One segment has gone, the one after the gap at c, which is now at d. */
  ghost predicate SameButOne(t: Tree, c: Coord, u: Tree, d: Coord)
    requires At(t.root, t.h, c)
  {
    var l, j := Segments(t), |Before(t.root, t.h, c)|;
    j < |l| && Segments(u) == l[..j] + l[j + 1..] && GapAt(u, d, j)
  }

  lemma RemovedFromLeafIsGood(t: Tree, p: int, q: int, c: Coord)
    requires At(t.root, t.h, c) && Along(t.root, t.h, p, q, c) && c[t.h] < LeafSize(t.root, t.h, c)
    requires t.h > 0 ==> t.root.segs != [] && LeafSize(t.root, t.h, c) >= MIN_DEGREE - 1
    ensures var (u, d) := RemovedFromLeaf(t, p, q, c); SoundTree(u, p, q) && SameButOne(t, c, u, d)
  {
    hide Along, Sound, TakeFromLeaf, Flatten;
    LeafLost(t.root, t.h, p, q, c);
    var (x, d) := Mend(TakeFromLeaf(t.root, t.h, p, q, c), t.h, p, q, c);
    Collapses(x, t.h, p, q, d);
  }

  lemma RemovedList(a: seq<Segment>, l: seq<Segment>, b: seq<Segment>, j: nat)
    requires j < |l|
    ensures var all, k := a + l + b, |a + l[..j]|; k < |all| && a + (l[..j] + l[j + 1..]) + b == all[..k] + all[k + 1..]
  {
  }

  /** A root without segments gives way to its only kid. */
  lemma Collapses(x: Node, h: nat, p: int, q: int, d: Coord)
    requires Sound(x, h, p, q) && At(x, h, d)
    ensures h > 0 && x.segs == [] ==>
              var y := x.kids[0].(gap := x.gap);
              && SoundTree(Tree(y, h - 1), p, q) && Flatten(y, h - 1) == Flatten(x, h)
              && At(y, h - 1, d[1..]) && Before(y, h - 1, d[1..]) == Before(x, h, d)
    ensures (h > 0 ==> x.segs != []) ==> SoundTree(Tree(x, h), p, q)
  {
    if h > 0 && x.segs == [] {
      KidIsSound(x, h, p, q, 0);
      FullGap(x.kids[0], h - 1, p, q);
      assert Weave([], x.kids, h - 1) == Flatten(x.kids[0], h - 1);
      assert x.kids[0].(gap := x.gap) == x.kids[0];
      assert x.segs[..0] == [] && x.kids[..0] == [];
    }
  }
}
