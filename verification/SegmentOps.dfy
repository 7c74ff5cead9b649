/** Remove, for any segment of a tree. */
module SegmentOps {
  import opened SegmentList
  import opened SegmentNode
  import opened SegmentInsert
  import opened SegmentGaps
  import opened SegmentRemove
  import opened SegmentTree
  import opened SegmentLift

  /** Sc is the segment that has k segments before it. */
  ghost predicate SegAt(t: Tree, sc: Coord, k: nat) { SegIn(t.root, t.h, sc) && |BeforeSeg(t.root, t.h, sc)| == k }

  lemma {:induction false} LeafSegIsGap(n: Node, h: nat, sc: Coord)
    requires SegIn(n, h, sc) && |sc| == h + 1
    ensures At(n, h, sc) && GapBefore(n, h, sc) == sc && sc[h] < LeafSize(n, h, sc)
    decreases h
  {
    if h > 0 { LeafSegIsGap(n.kids[sc[0]], h - 1, sc[1..]); }
  }

  /** The predecessor of a segment that is not in a leaf is in one. */
  lemma {:induction false} PredecessorInLeaf(n: Node, h: nat, sc: Coord)
    requires Shaped(n, h) && SegIn(n, h, sc) && |sc| <= h
    ensures var c := GapBefore(n, h, sc); At(n, h, c) && c[h] == LeafSize(n, h, c)
    decreases h
  {
    hide Prefix, Flatten, Before, BeforeSeg, Last;
    var i := sc[0];
    GapBeforeAt(n, h, sc);
    var c := GapBefore(n, h, sc);
    if |sc| == 1 {
      LastAt(n.kids[i], h - 1);
      assert c[1..] == Last(n.kids[i], h - 1) && c[h] == c[1..][h - 1];
    } else {
      PredecessorInLeaf(n.kids[i], h - 1, sc[1..]);
      assert c[1..] == GapBefore(n.kids[i], h - 1, sc[1..]) && c[h] == c[1..][h - 1];
    }
  }

  /** A tree that is sound but, perhaps, for the cached gaps of the leaf at c. */
  ghost predicate Stale(t: Tree, p: int, q: int, c: Coord) {
    && At(t.root, t.h, c) && Along(t.root, t.h, p, q, c)
    && (t.h > 0 ==> t.root.segs != [] && LeafSize(t.root, t.h, c) >= MIN_DEGREE - 1)
  }

  lemma SoundIsStale(t: Tree, p: int, q: int, c: Coord)
    requires SoundTree(t, p, q) && At(t.root, t.h, c)
    ensures Stale(t, p, q, c)
  {
    AlongSound(t.root, t.h, p, q, c);
    LeafIsLarge(t.root, t.h, p, q, c);
  }

  /** A tree that is sound but for the leaf before the segment at sc. */
  ghost predicate Removable(t: Tree, p: int, q: int, sc: Coord) {
    SegIn(t.root, t.h, sc) && Stale(t, p, q, GapBefore(t.root, t.h, sc))
  }

  /** Remove: from a leaf directly; otherwise the predecessor is put in the place of
      the segment and removed from its leaf. The gap is the one left by it. */
  function Removed(t: Tree, p: int, q: int, sc: Coord): (Tree, Coord)
    requires Removable(t, p, q, sc)
  {
    if |sc| == t.h + 1 then
      LeafSegIsGap(t.root, t.h, sc);
      RemovedFromLeaf(t, p, q, sc)
    else
      PredecessorIs(t, p, q, sc);
      var c := GapBefore(t.root, t.h, sc);
      var victim := LeafAt(t.root, t.h, c).segs[c[t.h] - 1];
      LiftIsSound(t.root, t.h, p, q, sc, victim);
      var n := Refresh(SetSeg(t.root, t.h, sc, victim), t.h, p, q, GapAfter(t.root, t.h, sc)).0;
      RemovedFromLeafIsGood(Tree(n, t.h), p, q, StepBack(c));
      var (u, d) := RemovedFromLeaf(Tree(n, t.h), p, q, StepBack(c));
      var next := NextSeg(u.root, u.h, d);
      (u, if next == [] then d else GapAfter(u.root, u.h, next))
  }

  /** Exactly that segment has gone, the tree is sound again, its cached gaps
      included, and the gap returned is where the segment was. */
  ghost predicate RemovesOne(t: Tree, p: int, q: int, sc: Coord, u: Tree, e: Coord)
    requires SegIn(t.root, t.h, sc)
  {
    var l, k := Segments(t), |BeforeSeg(t.root, t.h, sc)|;
    SoundTree(u, p, q) && k < |l| && Segments(u) == l[..k] + l[k + 1..] && GapAt(u, e, k)
  }

  lemma RemovedIsGood(t: Tree, p: int, q: int, sc: Coord)
    requires Removable(t, p, q, sc)
    ensures var (u, e) := Removed(t, p, q, sc); RemovesOne(t, p, q, sc, u, e)
  {
    if |sc| == t.h + 1 { RemovedInLeaf(t, p, q, sc); } else { RemovedAbove(t, p, q, sc); }
  }

  lemma RemovedInLeaf(t: Tree, p: int, q: int, sc: Coord)
    requires Removable(t, p, q, sc) && |sc| == t.h + 1
    ensures var (u, e) := Removed(t, p, q, sc); RemovesOne(t, p, q, sc, u, e)
  {
    hide Along, RemovedFromLeaf, Flatten, Sound;
    LeafSegIsGap(t.root, t.h, sc);
    AlongIsShaped(t.root, t.h, p, q, sc);
    GapBeforeAt(t.root, t.h, sc);
    RemovedFromLeafIsGood(t, p, q, sc);
  }

  /** The predecessor in its leaf and in the list. */
  lemma PredecessorIs(t: Tree, p: int, q: int, sc: Coord)
    requires Removable(t, p, q, sc) && |sc| <= t.h
    ensures Liftable(t.root, t.h, p, q, sc)
    ensures var c, l, k := GapBefore(t.root, t.h, sc), Segments(t), |BeforeSeg(t.root, t.h, sc)|;
            c[t.h] > 0 && 0 < k <= |l| && LeafAt(t.root, t.h, c).segs[c[t.h] - 1] == l[k - 1]
  {
    hide Along, Flatten;
    var n, h := t.root, t.h;
    AlongIsShaped(n, h, p, q, GapBefore(n, h, sc));
    PredecessorInLeaf(n, h, sc);
    GapBeforeAt(n, h, sc);
    FlattenAtLeaf(n, h, GapBefore(n, h, sc));
    BeforeIsPrefix(n, h, GapBefore(n, h, sc));
  }

  /** Writing a segment over its successor and deleting it deletes the successor. */
  lemma OverwriteAndDelete(l: seq<Segment>, k: nat)
    requires 0 < k < |l|
    ensures var m := l[k := l[k - 1]]; m[..k - 1] + m[k..] == l[..k] + l[k + 1..]
  {
    var m := l[k := l[k - 1]];
    assert m[k..] == [l[k - 1]] + l[k + 1..];
    assert l[..k] == l[..k - 1] + [l[k - 1]];
  }

  lemma GapAfterNext(u: Tree, p: int, q: int, d: Coord, j: nat)
    requires SoundTree(u, p, q) && GapAt(u, d, j) && j < |Segments(u)|
    ensures var next := NextSeg(u.root, u.h, d); next != [] && GapAt(u, GapAfter(u.root, u.h, next), j + 1)
  {
    hide Sound, Flatten;
    SoundIsShaped(u.root, u.h, p, q);
    BeforeIsPrefix(u.root, u.h, d);
    NextSegAt(u.root, u.h, d);
    GapAfterAt(u.root, u.h, NextSeg(u.root, u.h, d));
  }

  lemma RemovedAbove(t: Tree, p: int, q: int, sc: Coord)
    requires Removable(t, p, q, sc) && |sc| <= t.h
    ensures var (u, e) := Removed(t, p, q, sc); RemovesOne(t, p, q, sc, u, e)
  {
    hide Sound, Along, RemovedFromLeaf, Flatten, LeafSize, Refresh, SetSeg, NextSeg, GapAfter;
    var l, k, h := Segments(t), |BeforeSeg(t.root, t.h, sc)|, t.h;
    PredecessorIs(t, p, q, sc);
    var c := GapBefore(t.root, h, sc);
    LiftIsSound(t.root, h, p, q, sc, l[k - 1]);
    var n := Refresh(SetSeg(t.root, h, sc, l[k - 1]), h, p, q, GapAfter(t.root, h, sc)).0;
    RemovedFromLeafIsGood(Tree(n, h), p, q, StepBack(c));
    var (u, d) := RemovedFromLeaf(Tree(n, h), p, q, StepBack(c));
    OverwriteAndDelete(l, k);
    GapAfterNext(u, p, q, d, k - 1);
  }
}
