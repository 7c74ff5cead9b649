/** Growing a segment into a gap next to it, and merging two neighbours. */
module SegmentMerge {
  import opened SegmentList
  import opened SegmentNode
  import opened SegmentInsert
  import opened SegmentGaps
  import opened SegmentRemove
  import opened SegmentTree
  import opened SegmentLift
  import opened SegmentOps
  import opened SegmentEdit
  import opened SegmentSplit

  // ----- the segment after a gap -----

  /** The segment after the gap at c becomes s. */
  function SetNext(n: Node, h: nat, c: Coord, s: Segment): Node
    requires At(n, h, c)
    decreases h
  {
    var i := c[0];
    if h == 0 then (if i < |n.segs| then n.(segs := n.segs[i := s]) else n)
    else if NextSeg(n.kids[i], h - 1, c[1..]) != [] then n.(kids := n.kids[i := SetNext(n.kids[i], h - 1, c[1..], s)])
    else if i < |n.segs| then n.(segs := n.segs[i := s])
    else n
  }

  /** It is the segment NextSeg names. */
  lemma {:induction false} SetNextIsSetSeg(n: Node, h: nat, c: Coord, s: Segment)
    requires At(n, h, c)
    ensures SetNext(n, h, c, s) == if NextSeg(n, h, c) != [] then SetSeg(n, h, NextSeg(n, h, c), s) else n
    decreases h
  {
    if h > 0 {
      var i, d := c[0], NextSeg(n.kids[c[0]], h - 1, c[1..]);
      SetNextIsSetSeg(n.kids[i], h - 1, c[1..], s);
      if d != [] { assert NextSeg(n, h, c)[0] == i && NextSeg(n, h, c)[1..] == d; }
    }
  }

  lemma {:induction false} AlongLast(n: Node, h: nat, p: int, q: int, c: Coord, q2: int)
    requires At(n, h, c) && Along(n, h, p, q, c) && NextSeg(n, h, c) == []
    ensures Along(n, h, p, q2, c)
    decreases h
  {
    if h > 0 {
      var i := c[0];
      assert i == |n.segs|;
      AlongLast(n.kids[i], h - 1, Low(n.segs, i, p), q, c[1..], q2);
      assert n.segs[i..] == [] && n.kids[i + 1..] == [];
    }
  }

  /** The first segment of a suffix may get another start. */
  lemma SameSuffix(segs: seq<Segment>, kids: seq<Node>, h: nat, q: int, s: Segment)
    requires segs != [] && SoundSuffix(segs, kids, h, q) && segs[0].end == s.end
    ensures SoundSuffix(segs[0 := s], kids, h, q)
  {
    hide Full;
    var s2 := segs[0 := s];
    forall j | 0 <= j < |kids| ensures InSuffix(s2, kids, h, q, j) { assert InSuffix(segs, kids, h, q, j); }
  }

  lemma {:induction false} SetNextAlong(n: Node, h: nat, p: int, q: int, c: Coord, s: Segment)
    requires At(n, h, c) && Along(n, h, p, q, c) && NextSeg(n, h, c) != [] && SegOf(n, h, NextSeg(n, h, c)).end == s.end
    ensures var m := SetNext(n, h, c, s);
            && At(m, h, c) && Along(m, h, p, q, c) && m.gap == n.gap && |m.segs| == |n.segs|
            && LeafAt(m, h, c).gap == LeafAt(n, h, c).gap && LeafSize(m, h, c) == LeafSize(n, h, c)
    decreases h
  {
    hide SoundPrefix, SoundSuffix, KidsGap;
    if h > 0 {
      var i, d, g := c[0], c[1..], h - 1;
      var m, e := SetNext(n, h, c, s), NextSeg(n.kids[i], g, d);
      if e != [] {
        assert NextSeg(n, h, c)[0] == i && NextSeg(n, h, c)[1..] == e;
        SetNextAlong(n.kids[i], g, Low(n.segs, i, p), High(n.segs, i, q), d, s);
        KidsGapUpdate(n.kids, i, m.kids[i]);
        assert m.kids[..i] == n.kids[..i] && m.kids[i + 1..] == n.kids[i + 1..];
      } else {
        AlongLast(n.kids[i], g, Low(n.segs, i, p), High(n.segs, i, q), d, s.start);
        assert m.segs[..i] == n.segs[..i] && m.segs[i..] == n.segs[i..][0 := s];
        SameSuffix(n.segs[i..], n.kids[i + 1..], g, q, s);
      }
    }
  }

  lemma {:induction false} SetNextList(n: Node, h: nat, c: Coord, s: Segment)
    requires Shaped(n, h) && At(n, h, c) && NextSeg(n, h, c) != []
    ensures var m, l, b := SetNext(n, h, c, s), Flatten(n, h), Before(n, h, c);
            && At(m, h, c) && |b| < |l| && Flatten(m, h) == l[|b| := s] && Before(m, h, c) == b
    decreases h
  {
    hide Prefix, Suffix, Weave;
    NextSegAt(n, h, c);
    if h > 0 {
      var i, d, g := c[0], c[1..], h - 1;
      var m, e := SetNext(n, h, c, s), NextSeg(n.kids[i], g, d);
      var sa, ka, sb, kb := n.segs[..i], n.kids[..i], n.segs[i..], n.kids[i + 1..];
      assert m.kids[..i] == ka && m.kids[i + 1..] == kb && m.segs[..i] == sa;
      KidFlatten(n, h, i, n.kids[i]);
      KidFlatten(m, h, i, m.kids[i]);
      var a, k, z := Prefix(sa, ka, g), Flatten(n.kids[i], g), Suffix(sb, kb, g);
      NextSegAt(n.kids[i], g, d);
      if e != [] {
        SetNextList(n.kids[i], g, d, s);
        NextInMiddle(a, k, z, |Before(n.kids[i], g, d)|, s);
      } else {
        assert m.segs[i..] == sb[0 := s];
        SuffixFirst(sb, kb, g, s);
        NextInEnd(a + k, z, s);
      }
    }
  }

  lemma SuffixFirst(segs: seq<Segment>, kids: seq<Node>, h: nat, s: Segment)
    requires segs != [] && |kids| == |segs|
    ensures var a, b := Suffix(segs, kids, h), Suffix(segs[0 := s], kids, h); a != [] && b == a[0 := s]
  {
    assert segs[0 := s][1..] == segs[1..];
  }

  lemma NextInMiddle(a: seq<Segment>, m: seq<Segment>, z: seq<Segment>, k: nat, s: Segment)
    requires k < |m|
    ensures a + m[k := s] + z == (a + m + z)[|a| + k := s]
  {
  }

  lemma NextInEnd(a: seq<Segment>, z: seq<Segment>, s: Segment)
    requires z != []
    ensures a + z[0 := s] == (a + z)[|a| := s]
  {
  }

  /** The leaf with the gap, after the start of the next segment has been moved. */
  lemma {:induction false} SetNextLeaf(n: Node, h: nat, p: int, q: int, c: Coord, s: Segment)
    requires At(n, h, c) && NextSeg(n, h, c) != [] && At(SetNext(n, h, c, s), h, c)
    ensures var m, a, b := SetNext(n, h, c, s), LeafAt(n, h, c), LeafAt(SetNext(n, h, c, s), h, c);
            && b.gap == a.gap && LeafLow(m, h, p, c) == LeafLow(n, h, p, c)
            && (if c[h] < |a.segs| then b.segs == a.segs[c[h] := s] && LeafHigh(m, h, q, c) == LeafHigh(n, h, q, c)
                else b.segs == a.segs && LeafHigh(m, h, q, c) == s.start)
    decreases h
  {
    if h > 0 {
      var i, d := c[0], c[1..];
      assert d[h - 1] == c[h];
      if NextSeg(n.kids[i], h - 1, d) != [] {
        SetNextLeaf(n.kids[i], h - 1, Low(n.segs, i, p), High(n.segs, i, q), d, s);
      } else {
        LastLeaf(n.kids[i], h - 1, s.start, d);
      }
    }
  }

  lemma {:induction false} LastLeaf(n: Node, h: nat, q: int, c: Coord)
    requires At(n, h, c) && NextSeg(n, h, c) == []
    ensures LeafHigh(n, h, q, c) == q && c[h] == |LeafAt(n, h, c).segs|
    decreases h
  {
    if h > 0 {
      assert c[1..][h - 1] == c[h];
      LastLeaf(n.kids[c[0]], h - 1, q, c[1..]);
    }
  }

  // ----- growing into a gap -----

  /** The segment before the gap at c becomes s, which reaches further. The cached
      gaps are computed anew only if the gap was a longest one of its leaf. */
  function GrowPrev(t: Tree, p: int, q: int, c: Coord, s: Segment): Tree
    requires At(t.root, t.h, c)
  {
    SetPrevAt(t.root, t.h, c, s);
    var leaf, n := LeafAt(t.root, t.h, c), SetPrev(t.root, t.h, c, s);
    if GapLength(leaf.segs, c[t.h], LeafLow(t.root, t.h, p, c), LeafHigh(t.root, t.h, q, c)) == leaf.gap
    then t.(root := Refresh(n, t.h, p, q, c).0) else t.(root := n)
  }

  /** The segment after the gap at c becomes s, which starts earlier. */
  function GrowNext(t: Tree, p: int, q: int, c: Coord, s: Segment): Tree
    requires At(t.root, t.h, c) && At(SetNext(t.root, t.h, c, s), t.h, c)
  {
    var leaf, n := LeafAt(t.root, t.h, c), SetNext(t.root, t.h, c, s);
    if GapLength(leaf.segs, c[t.h], LeafLow(t.root, t.h, p, c), LeafHigh(t.root, t.h, q, c)) == leaf.gap
    then t.(root := Refresh(n, t.h, p, q, c).0) else t.(root := n)
  }

  /** A narrower gap in the leaf: exact if computed anew, or if it was not a longest. */
  lemma Narrowed(t: Tree, n: Node, p: int, q: int, c: Coord)
    requires SoundTree(t, p, q) && At(t.root, t.h, c) && At(n, t.h, c) && Along(n, t.h, p, q, c)
    requires |n.segs| == |t.root.segs|
    requires LeafSize(n, t.h, c) == LeafSize(t.root, t.h, c) && LeafAt(n, t.h, c).gap == LeafAt(t.root, t.h, c).gap
    requires var l, l2, j := LeafAt(t.root, t.h, c).segs, LeafAt(n, t.h, c).segs, c[t.h];
             var lo, hi := LeafLow(t.root, t.h, p, c), LeafHigh(t.root, t.h, q, c);
             var lo2, hi2 := LeafLow(n, t.h, p, c), LeafHigh(n, t.h, q, c);
             && |l2| == |l| && GapLength(l2, j, lo2, hi2) <= GapLength(l, j, lo, hi)
             && (forall i :: 0 <= i <= |l| && i != j ==> GapLength(l2, i, lo2, hi2) == GapLength(l, i, lo, hi))
    ensures var l, j := LeafAt(t.root, t.h, c).segs, c[t.h];
            var lo, hi := LeafLow(t.root, t.h, p, c), LeafHigh(t.root, t.h, q, c);
            var m := if GapLength(l, j, lo, hi) == LeafAt(t.root, t.h, c).gap then Refresh(n, t.h, p, q, c).0 else n;
            && SoundTree(t.(root := m), p, q) && Flatten(m, t.h) == Flatten(n, t.h)
            && At(m, t.h, c) && Before(m, t.h, c) == Before(n, t.h, c)
  {
    hide Sound, Along, Flatten, Before, LeafAt, LeafLow, LeafHigh, LeafExact, LeafSize;
    var h, l, l2, j := t.h, LeafAt(t.root, t.h, c).segs, LeafAt(n, t.h, c).segs, c[t.h];
    var lo, hi := LeafLow(t.root, h, p, c), LeafHigh(t.root, h, q, c);
    var lo2, hi2 := LeafLow(n, h, p, c), LeafHigh(n, h, q, c);
    AlongSound(t.root, h, p, q, c);
    LeafExactAt(t.root, h, p, q, c);
    LeafExactAt(n, h, p, q, c);
    LeafIsLarge(t.root, h, p, q, c);
    if GapLength(l, j, lo, hi) == LeafAt(t.root, h, c).gap {
      RefreshIsExact(n, h, p, q, c);
      SoundAlong(Refresh(n, h, p, q, c).0, h, p, q, c);
    } else {
      MaxGapNarrowed(lo, l, hi, lo2, l2, hi2, j);
      SoundAlong(n, h, p, q, c);
    }
  }

  /** The segments next to a gap, in the leaf and in the list. */
  lemma LeafNeighbours(n: Node, h: nat, c: Coord)
    requires At(n, h, c)
    ensures var leaf, l, k, j := LeafAt(n, h, c).segs, Flatten(n, h), |Before(n, h, c)|, c[h];
            && k <= |l| && (j > 0 ==> k > 0 && leaf[j - 1] == l[k - 1]) && (j < |leaf| ==> k < |l| && leaf[j] == l[k])
  {
    FlattenAtLeaf(n, h, c);
  }

  lemma GrowPrevIsGood(t: Tree, p: int, q: int, c: Coord, s: Segment)
    requires SoundTree(t, p, q) && At(t.root, t.h, c)
    requires var l, k := Segments(t), |Before(t.root, t.h, c)|;
            0 < k <= |l| && l[k - 1].start == s.start && l[k - 1].end <= s.end
    ensures var u, l, k := GrowPrev(t, p, q, c, s), Segments(t), |Before(t.root, t.h, c)|;
            SoundTree(u, p, q) && Segments(u) == l[k - 1 := s] && GapAt(u, c, k)
  {
    hide Sound, Along, Flatten, SetPrev, PrevSeg, SegOf, BeforeSeg, LeafLow, LeafHigh, LeafExact;
    var h, n := t.h, SetPrev(t.root, t.h, c, s);
    SoundIsShaped(t.root, h, p, q);
    PrevSegAt(t.root, h, c);
    SetPrevIsSetSeg(t.root, h, c, s);
    BeforeIsPrefix(t.root, h, c);
    AlongSound(t.root, h, p, q, c);
    SetPrevAlong(t.root, h, p, q, c, s);
    SetPrevList(t.root, h, c, s);
    SetPrevLeaf(t.root, h, p, q, c, s);
    GapEnds(t.root, h, p, q, c);
    GapEnds(n, h, p, q, c);
    LeafSizes(t.root, n, h, c);
    LeafNeighbours(t.root, h, c);
    PrevGapsSame(LeafAt(t.root, h, c).segs, c[h], LeafLow(t.root, h, p, c), LeafHigh(t.root, h, q, c), s);
    Narrowed(t, n, p, q, c);
  }

  lemma PrevGapsSame(l: seq<Segment>, j: nat, lo: int, hi: int, s: Segment)
    requires j <= |l| && (j > 0 ==> l[j - 1].start == s.start)
    ensures var l2, lo2 := if j > 0 then l[j - 1 := s] else l, if j > 0 then lo else s.end;
            forall i :: 0 <= i <= |l| && i != j ==> GapLength(l2, i, lo2, hi) == GapLength(l, i, lo, hi)
  {
  }

  lemma NextGapsSame(l: seq<Segment>, j: nat, lo: int, hi: int, s: Segment)
    requires j <= |l| && (j < |l| ==> l[j].end == s.end)
    ensures var l2, hi2 := if j < |l| then l[j := s] else l, if j < |l| then hi else s.start;
            forall i :: 0 <= i <= |l| && i != j ==> GapLength(l2, i, lo, hi2) == GapLength(l, i, lo, hi)
  {
  }

  lemma LeafSizes(a: Node, b: Node, h: nat, c: Coord)
    requires At(a, h, c) && At(b, h, c)
    ensures |LeafAt(a, h, c).segs| == LeafSize(a, h, c) && |LeafAt(b, h, c).segs| == LeafSize(b, h, c)
  {
    FlattenAtLeaf(a, h, c);
    FlattenAtLeaf(b, h, c);
  }

  lemma GrowNextIsGood(t: Tree, p: int, q: int, c: Coord, s: Segment)
    requires SoundTree(t, p, q) && At(t.root, t.h, c)
    requires var l, k := Segments(t), |Before(t.root, t.h, c)|; k < |l| && l[k].end == s.end && s.start <= l[k].start
    ensures At(SetNext(t.root, t.h, c, s), t.h, c)
    ensures var u, l, k := GrowNext(t, p, q, c, s), Segments(t), |Before(t.root, t.h, c)|;
            SoundTree(u, p, q) && Segments(u) == l[k := s] && GapAt(u, c, k)
  {
    hide Sound, Along, Flatten, SetNext, NextSeg, SegOf, BeforeSeg, LeafLow, LeafHigh, LeafExact;
    var h, n := t.h, SetNext(t.root, t.h, c, s);
    SoundIsShaped(t.root, h, p, q);
    NextSegAt(t.root, h, c);
    BeforeIsPrefix(t.root, h, c);
    AlongSound(t.root, h, p, q, c);
    SetNextAlong(t.root, h, p, q, c, s);
    SetNextList(t.root, h, c, s);
    SetNextLeaf(t.root, h, p, q, c, s);
    GapEnds(t.root, h, p, q, c);
    GapEnds(n, h, p, q, c);
    LeafSizes(t.root, n, h, c);
    LeafNeighbours(t.root, h, c);
    NextGapsSame(LeafAt(t.root, h, c).segs, c[h], LeafLow(t.root, h, p, c), LeafHigh(t.root, h, q, c), s);
    Narrowed(t, n, p, q, c);
  }

  // ----- merging two neighbours -----

  /** Once its predecessor is s, the segment at sc can be removed. */
  ghost predicate Mergeable(t: Tree, p: int, q: int, sc: Coord, s: Segment) {
    && SegIn(t.root, t.h, sc) && At(t.root, t.h, GapBefore(t.root, t.h, sc))
    && Removable(t.(root := SetPrev(t.root, t.h, GapBefore(t.root, t.h, sc), s)), p, q, sc)
  }

  /** MergeUnchecked, of the segment at sc with its predecessor, to s: the
      predecessor becomes s, which overlaps the segment until that is removed. */
  function MergeTree(t: Tree, p: int, q: int, sc: Coord, s: Segment): (Tree, Coord)
    requires Mergeable(t, p, q, sc, s)
  {
    Removed(t.(root := SetPrev(t.root, t.h, GapBefore(t.root, t.h, sc), s)), p, q, sc)
  }

  /** The same numbers of segments and kids everywhere. */
  ghost predicate SameShape(n: Node, m: Node, h: nat)
    decreases h
  {
    && |m.segs| == |n.segs| && |m.kids| == |n.kids|
    && (h > 0 ==> forall i :: 0 <= i < |n.kids| ==> SameShape(n.kids[i], m.kids[i], h - 1))
  }

  lemma {:induction false} ShapeIsSame(n: Node, h: nat)
    ensures SameShape(n, n, h)
    decreases h
  {
    if h > 0 {
      forall i | 0 <= i < |n.kids| ensures SameShape(n.kids[i], n.kids[i], h - 1) { ShapeIsSame(n.kids[i], h - 1); }
    }
  }

  lemma {:induction false} SetPrevKeepsShape(n: Node, h: nat, c: Coord, s: Segment)
    requires At(n, h, c)
    ensures SameShape(n, SetPrev(n, h, c, s), h)
    decreases h
  {
    if h > 0 {
      SetPrevKeepsShape(n.kids[c[0]], h - 1, c[1..], s);
      forall i | 0 <= i < |n.kids| ensures SameShape(n.kids[i], SetPrev(n, h, c, s).kids[i], h - 1) {
        ShapeIsSame(n.kids[i], h - 1);
      }
    }
  }

  lemma {:induction false} LastKept(n: Node, m: Node, h: nat)
    requires SameShape(n, m, h)
    ensures Last(m, h) == Last(n, h)
    decreases h
  {
    if h > 0 && |n.kids| == |n.segs| + 1 { LastKept(n.kids[|n.segs|], m.kids[|n.segs|], h - 1); }
  }

  /** Segments and gaps have the same names in trees of the same shape. */
  lemma {:induction false} NamesKept(n: Node, m: Node, h: nat, sc: Coord)
    requires SameShape(n, m, h) && SegIn(n, h, sc)
    ensures SegIn(m, h, sc) && GapBefore(m, h, sc) == GapBefore(n, h, sc)
    decreases h
  {
    if h > 0 {
      if |sc| == 1 {
        LastKept(n.kids[sc[0]], m.kids[sc[0]], h - 1);
      } else {
        NamesKept(n.kids[sc[0]], m.kids[sc[0]], h - 1, sc[1..]);
      }
    }
  }

  /** While the two overlap, only the leaf between them is out of date. */
  lemma MergeIsRemovable(t: Tree, p: int, q: int, sc: Coord, s: Segment)
    requires SoundTree(t, p, q) && SegIn(t.root, t.h, sc)
    requires var l, k := Segments(t), |BeforeSeg(t.root, t.h, sc)|; 0 < k <= |l| && l[k - 1].start == s.start
    ensures At(t.root, t.h, GapBefore(t.root, t.h, sc))
    ensures var m := t.(root := SetPrev(t.root, t.h, GapBefore(t.root, t.h, sc), s));
            var l, k := Segments(t), |BeforeSeg(t.root, t.h, sc)|;
            Removable(m, p, q, sc) && Segments(m) == l[k - 1 := s] && |BeforeSeg(m.root, m.h, sc)| == k
  {
    hide Sound, Along, Flatten, SetPrev, PrevSeg, SegOf, BeforeSeg, GapBefore;
    var n, h := t.root, t.h;
    var c := GapBefore(n, h, sc);
    SoundIsShaped(n, h, p, q);
    GapBeforeAt(n, h, sc);
    PrevSegAt(n, h, c);
    BeforeIsPrefix(n, h, c);
    SetPrevIsSetSeg(n, h, c, s);
    AlongSound(n, h, p, q, c);
    LeafIsLarge(n, h, p, q, c);
    SetPrevAlong(n, h, p, q, c, s);
    SetPrevList(n, h, c, s);
    var m := SetPrev(n, h, c, s);
    SetPrevKeepsShape(n, h, c, s);
    NamesKept(n, m, h, sc);
    AlongIsShaped(m, h, p, q, c);
    GapBeforeAt(m, h, sc);
  }

  /** The two are one, and the cached gaps are exact. */
  lemma MergeTreeIsGood(t: Tree, p: int, q: int, sc: Coord, s: Segment)
    requires SoundTree(t, p, q) && SegIn(t.root, t.h, sc)
    requires var l, k := Segments(t), |BeforeSeg(t.root, t.h, sc)|; 0 < k <= |l| && l[k - 1].start == s.start
    ensures Mergeable(t, p, q, sc, s)
    ensures var (u, d) := MergeTree(t, p, q, sc, s);
            var l, k := Segments(t), |BeforeSeg(t.root, t.h, sc)|;
            k < |l| && SoundTree(u, p, q) && Segments(u) == l[..k - 1] + [s] + l[k + 1..] && GapAt(u, d, k)
  {
    hide Sound, Flatten, SetPrev, Removable, Removed;
    MergeIsRemovable(t, p, q, sc, s);
    RemovedIsGood(t.(root := SetPrev(t.root, t.h, GapBefore(t.root, t.h, sc), s)), p, q, sc);
    MergedList(Segments(t), |BeforeSeg(t.root, t.h, sc)|, s);
  }

  lemma MergedList(l: seq<Segment>, k: nat, s: Segment)
    ensures 0 < k < |l| ==> var m := l[k - 1 := s]; m[..k] + m[k + 1..] == l[..k - 1] + [s] + l[k + 1..]
  {
  }
}
