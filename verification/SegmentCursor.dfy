/** Iterators: where a segment or a gap is, and its neighbours. */
module SegmentCursor {
  import opened SegmentList
  import opened SegmentNode
  import opened SegmentInsert
  import opened SegmentGaps
  import opened SegmentTree
  import opened SegmentLift
  import opened SegmentOps

  lemma GoodIsShaped(t: Tree, p: int, q: int)
    requires Good(t, p, q)
    ensures Shaped(t.root, t.h)
  {
    if SoundTree(t, p, q) { SoundIsShaped(t.root, t.h, p, q); }
  }

  lemma {:induction false} SegOfAt(n: Node, h: nat, sc: Coord)
    requires Shaped(n, h) && SegIn(n, h, sc)
    ensures |BeforeSeg(n, h, sc)| < |Flatten(n, h)| && SegOf(n, h, sc) == Flatten(n, h)[|BeforeSeg(n, h, sc)|]
  {
    GapAfterAt(n, h, sc);
    BeforeIsPrefix(n, h, GapAfter(n, h, sc));
  }

  /** A segment and the gaps around it. */
  lemma SegIs(t: Tree, p: int, q: int, sc: Coord, k: nat)
    requires Good(t, p, q) && SegAt(t, sc, k)
    ensures k < |Segments(t)| && SegOf(t.root, t.h, sc) == Segments(t)[k]
    ensures GapAt(t, GapBefore(t.root, t.h, sc), k) && GapAt(t, GapAfter(t.root, t.h, sc), k + 1)
  {
    GoodIsShaped(t, p, q);
    SegOfAt(t.root, t.h, sc);
    GapBeforeAt(t.root, t.h, sc);
    GapAfterAt(t.root, t.h, sc);
  }

  /** A gap and the segments around it. */
  lemma GapIs(t: Tree, p: int, q: int, c: Coord, j: nat)
    requires Good(t, p, q) && GapAt(t, c, j)
    ensures j <= |Segments(t)|
    ensures var r := NextSeg(t.root, t.h, c); if j == |Segments(t)| then r == [] else SegAt(t, r, j)
    ensures var r := PrevSeg(t.root, t.h, c); if j == 0 then r == [] else SegAt(t, r, j - 1)
  {
    GoodIsShaped(t, p, q);
    BeforeIsPrefix(t.root, t.h, c);
    NextSegAt(t.root, t.h, c);
    PrevSegAt(t.root, t.h, c);
  }

  /** A gap in a leaf that has a segment after it names that segment. */
  lemma {:induction false} LeafGapIsSeg(n: Node, h: nat, c: Coord)
    requires At(n, h, c) && c[h] < LeafSize(n, h, c)
    ensures SegIn(n, h, c) && GapBefore(n, h, c) == c
    decreases h
  {
    if h > 0 {
      assert c[1..][h - 1] == c[h];
      LeafGapIsSeg(n.kids[c[0]], h - 1, c[1..]);
    }
  }

  lemma GapNamesSeg(t: Tree, p: int, q: int, c: Coord, j: nat)
    requires Good(t, p, q) && GapAt(t, c, j) && c[t.h] < LeafSize(t.root, t.h, c)
    ensures SegAt(t, c, j)
  {
    GoodIsShaped(t, p, q);
    LeafGapIsSeg(t.root, t.h, c);
    GapBeforeAt(t.root, t.h, c);
  }

  /** The segment after or before a segment, if there is one. */
  function NextSegment(t: Tree, sc: Coord): Coord
    requires SegIn(t.root, t.h, sc) && At(t.root, t.h, GapAfter(t.root, t.h, sc))
  {
    NextSeg(t.root, t.h, GapAfter(t.root, t.h, sc))
  }

  function PrevSegment(t: Tree, sc: Coord): Coord
    requires SegIn(t.root, t.h, sc) && At(t.root, t.h, GapBefore(t.root, t.h, sc))
  {
    PrevSeg(t.root, t.h, GapBefore(t.root, t.h, sc))
  }

  /** Iterating: the neighbours of segment k are segments k + 1 and k - 1. */
  lemma NeighboursAre(t: Tree, p: int, q: int, sc: Coord, k: nat)
    requires Good(t, p, q) && SegAt(t, sc, k)
    ensures k < |Segments(t)| && At(t.root, t.h, GapAfter(t.root, t.h, sc))
    ensures At(t.root, t.h, GapBefore(t.root, t.h, sc))
    ensures if k + 1 == |Segments(t)| then NextSegment(t, sc) == [] else SegAt(t, NextSegment(t, sc), k + 1)
    ensures if k == 0 then PrevSegment(t, sc) == [] else SegAt(t, PrevSegment(t, sc), k - 1)
  {
    hide Good, Segments;
    SegIs(t, p, q, sc, k);
    GapIs(t, p, q, GapAfter(t.root, t.h, sc), k + 1);
    GapIs(t, p, q, GapBefore(t.root, t.h, sc), k);
  }

  lemma FirstGapAt(t: Tree, p: int, q: int)
    requires Good(t, p, q)
    ensures GapAt(t, First(t.h), 0)
  {
    GoodIsShaped(t, p, q);
    FirstAt(t.root, t.h);
  }

  // ----- Find -----

  /** Ascending and disjoint. */
  ghost predicate Ascending(l: seq<Segment>) {
    (forall i :: 0 <= i < |l| ==> l[i].start < l[i].end) && (forall i, j :: 0 <= i < j < |l| ==> l[i].end <= l[j].start)
  }

  /** Key is after the first j segments and before the others. */
  ghost predicate Divides(l: seq<Segment>, j: nat, key: int) {
    && j <= |l| && (forall i :: 0 <= i < j ==> l[i].end <= key) && (forall i :: j <= i < |l| ==> key < l[i].start)
  }

  ghost predicate Found(n: Node, h: nat, key: int, seg: Coord, gap: Coord) {
    if seg != [] then SegIn(n, h, seg) && SegOf(n, h, seg).start <= key < SegOf(n, h, seg).end
    else At(n, h, gap) && Divides(Flatten(n, h), |Before(n, h, gap)|, key)
  }

  lemma NodeAscends(n: Node, h: nat, i: nat)
    requires Shaped(n, h) && h > 0 && Ascending(Flatten(n, h)) && i <= |n.segs|
    ensures Ascending(Flatten(n.kids[i], h - 1))
    ensures i < |n.segs| ==> n.segs[i].start < n.segs[i].end
    ensures 0 < i < |n.segs| ==> n.segs[i - 1].end <= n.segs[i].start
  {
    hide Prefix, Suffix, Weave;
    KidFlatten(n, h, i, n.kids[i]);
    var a, m := Prefix(n.segs[..i], n.kids[..i], h - 1), Flatten(n.kids[i], h - 1);
    var b := Suffix(n.segs[i..], n.kids[i + 1..], h - 1);
    var l := Flatten(n, h);
    assert forall j :: 0 <= j < |m| ==> m[j] == l[|a| + j];
    SuffixStart(n.segs[i..], n.kids[i + 1..], h - 1);
    PrefixEnd(n.segs[..i], n.kids[..i], h - 1);
    if i < |n.segs| {
      assert l[|a| + |m|] == n.segs[i];
      if i > 0 { assert l[|a| - 1] == n.segs[i - 1]; }
    }
  }

  /** The search goes on in the kid between two segments of the node. */
  lemma DividesUp(n: Node, h: nat, i: nat, key: int, j: nat)
    requires Shaped(n, h) && h > 0 && Ascending(Flatten(n, h)) && i <= |n.segs|
    requires (i > 0 ==> n.segs[i - 1].end <= key) && (i < |n.segs| ==> key < n.segs[i].start)
    requires Divides(Flatten(n.kids[i], h - 1), j, key)
    ensures Divides(Flatten(n, h), |Prefix(n.segs[..i], n.kids[..i], h - 1)| + j, key)
  {
    hide Prefix, Suffix, Weave;
    KidFlatten(n, h, i, n.kids[i]);
    var a, m := Prefix(n.segs[..i], n.kids[..i], h - 1), Flatten(n.kids[i], h - 1);
    var b := Suffix(n.segs[i..], n.kids[i + 1..], h - 1);
    PrefixEnd(n.segs[..i], n.kids[..i], h - 1);
    SuffixStart(n.segs[i..], n.kids[i + 1..], h - 1);
    DividesMiddle(a, m, b, j, key);
  }

  lemma DividesMiddle(a: seq<Segment>, m: seq<Segment>, b: seq<Segment>, j: nat, key: int)
    requires Ascending(a + m + b) && Divides(m, j, key)
    requires (a != [] ==> a[|a| - 1].end <= key) && (b != [] ==> key < b[0].start)
    ensures Divides(a + m + b, |a| + j, key)
  {
    var l := a + m + b;
    forall x | 0 <= x < |a| + j ensures l[x].end <= key {
      if x < |a| - 1 { assert l[x].end <= l[|a| - 1].start < l[|a| - 1].end; }
      if x >= |a| { assert l[x] == m[x - |a|]; }
    }
    forall x | |a| + j <= x < |l| ensures key < l[x].start {
      if x < |a| + |m| { assert l[x] == m[x - |a|]; }
      if x > |a| + |m| { assert l[|a| + |m|].start < l[|a| + |m|].end <= l[x].start; }
    }
  }

  /** Binary search for the place of a key among the segments of a node. */
  method SearchNode(segs: seq<Segment>, key: int) returns (found: bool, i: nat)
    requires Ascending(segs)
    ensures found ==> i < |segs| && segs[i].start <= key < segs[i].end
    ensures !found ==> Divides(segs, i, key)
  {
    var lower, upper := 0, |segs|;
    while lower < upper
      invariant 0 <= lower <= upper <= |segs|
      invariant forall j :: 0 <= j < lower ==> segs[j].end <= key
      invariant forall j :: upper <= j < |segs| ==> key < segs[j].start
    {
      var m := lower + (upper - lower) / 2;
      if key < segs[m].end {
        if key >= segs[m].start { return true, m; }
        upper := m;
      } else {
        lower := m + 1;
      }
    }
    return false, lower;
  }

  lemma NodeSegsAscend(n: Node, h: nat)
    requires Shaped(n, h) && Ascending(Flatten(n, h))
    ensures Ascending(n.segs)
  {
    if h > 0 {
      forall i | 0 <= i < |n.segs| ensures n.segs[i].start < n.segs[i].end { NodeAscends(n, h, i); }
      forall i, j | 0 <= i < j < |n.segs| ensures n.segs[i].end <= n.segs[j].start { SegsAscend(n, h, i, j); }
    }
  }

  lemma {:induction false} SegsAscend(n: Node, h: nat, i: nat, j: nat)
    requires Shaped(n, h) && h > 0 && Ascending(Flatten(n, h)) && i < j < |n.segs|
    ensures n.segs[i].end <= n.segs[j].start
    decreases j
  {
    NodeAscends(n, h, j);
    if i < j - 1 {
      SegsAscend(n, h, i, j - 1);
      NodeAscends(n, h, j - 1);
    }
  }

  /** Find below a node: the segment with the key, or the gap. */
  method FindIn(n: Node, h: nat, key: int) returns (seg: Coord, gap: Coord)
    requires Shaped(n, h) && Ascending(Flatten(n, h))
    ensures Found(n, h, key, seg, gap)
    decreases h
  {
    hide Flatten, Prefix;
    NodeSegsAscend(n, h);
    var found, i := SearchNode(n.segs, key);
    if found { return [i], []; }
    if h == 0 {
      LeafDivides(n, i, key);
      return [], [i];
    }
    NodeAscends(n, h, i);
    seg, gap := FindIn(n.kids[i], h - 1, key);
    if seg != [] {
      assert ([i] + seg)[1..] == seg;
      seg := [i] + seg;
    } else {
      DividesUp(n, h, i, key, |Before(n.kids[i], h - 1, gap)|);
      gap := [i] + gap;
    }
  }

  lemma LeafDivides(n: Node, i: nat, key: int)
    requires Shaped(n, 0) && Divides(n.segs, i, key)
    ensures Found(n, 0, key, [], [i])
  {
  }
}
