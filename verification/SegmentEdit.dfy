/** Moving an end of a segment next to a gap. Only the leaf with the gap is
    affected, wherever the segment is. */
module SegmentEdit {
  import opened SegmentList
  import opened SegmentNode
  import opened SegmentInsert
  import opened SegmentGaps
  import opened SegmentRemove
  import opened SegmentTree
  import opened SegmentLift

  /** Some segment is before the gap at c. */
  predicate HasPrev(c: Coord) { c != [] && (c[0] > 0 || HasPrev(c[1..])) }

  /** The segment before the gap at c becomes s. */
  function SetPrev(n: Node, h: nat, c: Coord, s: Segment): Node
    requires At(n, h, c)
    decreases h
  {
    var i := c[0];
    if h == 0 then (if i > 0 then n.(segs := n.segs[i - 1 := s]) else n)
    else Node(if !HasPrev(c[1..]) && i > 0 then n.segs[i - 1 := s] else n.segs,
              n.kids[i := SetPrev(n.kids[i], h - 1, c[1..], s)], n.gap)
  }

  /** It is the segment PrevSeg names. */
  lemma {:induction false} SetPrevIsSetSeg(n: Node, h: nat, c: Coord, s: Segment)
    requires At(n, h, c)
    ensures PrevSeg(n, h, c) != [] <==> HasPrev(c)
    ensures SetPrev(n, h, c, s) == if HasPrev(c) then SetSeg(n, h, PrevSeg(n, h, c), s) else n
    decreases h
  {
    if h > 0 {
      var i, d := c[0], PrevSeg(n.kids[c[0]], h - 1, c[1..]);
      SetPrevIsSetSeg(n.kids[i], h - 1, c[1..], s);
      if d != [] {
        assert PrevSeg(n, h, c)[0] == i && PrevSeg(n, h, c)[1..] == d;
      } else {
        assert n.kids[i := n.kids[i]] == n.kids;
      }
    }
  }

  /** The start of the segment before the gap at c, or the bound if there is none. */
  ghost function PrevStart(n: Node, h: nat, c: Coord, none: int): int
    requires At(n, h, c)
  {
    if PrevSeg(n, h, c) == [] then none else SegOf(n, h, PrevSeg(n, h, c)).start
  }

  /** What is left of the segment before the gap does not depend on the bound. */
  lemma {:induction false} AlongFirst(n: Node, h: nat, p: int, q: int, c: Coord, p2: int)
    requires At(n, h, c) && Along(n, h, p, q, c) && !HasPrev(c)
    ensures Along(n, h, p2, q, c)
    decreases h
  {
    if h > 0 {
      AlongFirst(n.kids[0], h - 1, p, High(n.segs, 0, q), c[1..], p2);
      assert n.segs[..0] == [] && n.kids[..0] == [];
    }
  }

  lemma SetPrevKid(n: Node, h: nat, c: Coord, s: Segment)
    requires h > 0 && At(n, h, c)
    ensures HasPrev(c[1..]) ==> PrevStart(n, h, c, s.start) == PrevStart(n.kids[c[0]], h - 1, c[1..], s.start)
    ensures !HasPrev(c[1..]) && c[0] > 0 ==> PrevStart(n, h, c, s.start) == n.segs[c[0] - 1].start
    ensures HasPrev(c[1..]) ==> HasPrev(c)
  {
    var i, d := c[0], PrevSeg(n.kids[c[0]], h - 1, c[1..]);
    SetPrevIsSetSeg(n.kids[i], h - 1, c[1..], s);
    SetPrevIsSetSeg(n, h, c, s);
    if d != [] { assert PrevSeg(n, h, c)[0] == i && PrevSeg(n, h, c)[1..] == d; }
  }

  /** The tree stays sound along the path to the gap, only the leaf's gap may now
      be wrong. */
  lemma {:induction false} SetPrevAlong(n: Node, h: nat, p: int, q: int, c: Coord, s: Segment)
    requires At(n, h, c) && Along(n, h, p, q, c) && PrevStart(n, h, c, s.start) == s.start
    ensures var m := SetPrev(n, h, c, s);
            && At(m, h, c) && Along(m, h, if HasPrev(c) then p else s.end, q, c)
            && m.gap == n.gap && |m.segs| == |n.segs|
            && LeafAt(m, h, c).gap == LeafAt(n, h, c).gap && LeafSize(m, h, c) == LeafSize(n, h, c)
    decreases h
  {
    hide SoundPrefix, SoundSuffix, KidsGap;
    if h > 0 {
      var i, d := c[0], c[1..];
      var x := SetPrev(n.kids[i], h - 1, d, s);
      var m := SetPrev(n, h, c, s);
      SetPrevKid(n, h, c, s);
      if !HasPrev(d) {
        SetPrevIsSetSeg(n.kids[i], h - 1, d, s);
        AlongFirst(n.kids[i], h - 1, Low(n.segs, i, p), High(n.segs, i, q), d, s.end);
        assert x == n.kids[i];
      } else {
        SetPrevAlong(n.kids[i], h - 1, Low(n.segs, i, p), High(n.segs, i, q), d, s);
      }
      KidsGapUpdate(n.kids, i, x);
      assert m.kids[..i] == n.kids[..i] && m.kids[i + 1..] == n.kids[i + 1..];
      assert m.segs[i..] == n.segs[i..];
      if !HasPrev(d) && i > 0 {
        assert m.segs[..i] == n.segs[..i][i - 1 := s];
        SamePrefix(n.segs[..i], n.kids[..i], h - 1, p, s);
      } else {
        assert m.segs == n.segs;
        if i == 0 { assert n.segs[..0] == [] && n.kids[..0] == []; EmptyPrefix(h - 1, p); EmptyPrefix(h - 1, s.end); }
      }
    }
  }

  lemma EmptyPrefix(h: nat, p: int)
    ensures SoundPrefix([], [], h, p)
  {
  }

  /** The last segment of a prefix may get another end. */
  lemma SamePrefix(segs: seq<Segment>, kids: seq<Node>, h: nat, p: int, s: Segment)
    requires segs != [] && SoundPrefix(segs, kids, h, p) && segs[|segs| - 1].start == s.start
    ensures SoundPrefix(segs[|segs| - 1 := s], kids, h, p)
  {
    hide Full;
    var s2 := segs[|segs| - 1 := s];
    forall j | 0 <= j < |kids| ensures InPrefix(s2, kids, h, p, j) { assert InPrefix(segs, kids, h, p, j); }
  }

  /** In the list, one segment has changed. */
  ghost predicate PrevIsSet(n: Node, h: nat, c: Coord, s: Segment)
    requires At(n, h, c)
  {
    var m, l, b := SetPrev(n, h, c, s), Flatten(n, h), Before(n, h, c);
    && At(m, h, c) && (HasPrev(c) <==> b != []) && |b| <= |l|
    && (if HasPrev(c) then Flatten(m, h) == l[|b| - 1 := s] && Before(m, h, c) == b[|b| - 1 := s] else m == n)
  }

  lemma SetPrevInLeaf(n: Node, c: Coord, s: Segment)
    requires At(n, 0, c)
    ensures PrevIsSet(n, 0, c, s)
  {
    assert c[1..] == [];
    if c[0] > 0 { assert n.segs[c[0] - 1 := s][..c[0]] == n.segs[..c[0]][c[0] - 1 := s]; }
  }

  lemma SetPrevBelow(n: Node, h: nat, c: Coord, s: Segment)
    requires h > 0 && At(n, h, c) && HasPrev(c[1..]) && PrevIsSet(n.kids[c[0]], h - 1, c[1..], s)
    ensures PrevIsSet(n, h, c, s)
  {
    hide Prefix, Suffix, Weave, Flatten;
    var i, d, g, m := c[0], c[1..], h - 1, SetPrev(n, h, c, s);
    BeforeIsPrefix(n.kids[i], g, d);
    assert m.kids[..i] == n.kids[..i] && m.kids[i + 1..] == n.kids[i + 1..] && m.segs == n.segs;
    KidFlatten(n, h, i, n.kids[i]);
    KidFlatten(m, h, i, m.kids[i]);
    LastInMiddle(Prefix(n.segs[..i], n.kids[..i], g), Flatten(n.kids[i], g), Suffix(n.segs[i..], n.kids[i + 1..], g),
                 Before(n.kids[i], g, d), s);
  }

  lemma SetPrevHere(n: Node, h: nat, c: Coord, s: Segment)
    requires h > 0 && At(n, h, c) && !HasPrev(c[1..]) && PrevIsSet(n.kids[c[0]], h - 1, c[1..], s)
    ensures PrevIsSet(n, h, c, s)
  {
    hide Prefix, Suffix, Weave, Shaped;
    var i, g, m := c[0], h - 1, SetPrev(n, h, c, s);
    var sa, ka := n.segs[..i], n.kids[..i];
    if i > 0 {
      assert m.kids[..i] == ka && m.kids[i + 1..] == n.kids[i + 1..] && m.segs[i..] == n.segs[i..];
      KidFlatten(n, h, i, n.kids[i]);
      KidFlatten(m, h, i, m.kids[i]);
      assert m.segs[..i] == sa[i - 1 := s];
      PrefixLast(sa, ka, g, s);
      LastBefore(Prefix(sa, ka, g), Flatten(n.kids[i], g), Suffix(n.segs[i..], n.kids[i + 1..], g), s);
    } else {
      PrefixEnd(sa, ka, g);
      assert m.segs == n.segs && m.kids == n.kids;
    }
  }

  lemma {:induction false} SetPrevList(n: Node, h: nat, c: Coord, s: Segment)
    requires At(n, h, c)
    ensures PrevIsSet(n, h, c, s)
    decreases h
  {
    hide PrevIsSet;
    if h == 0 {
      SetPrevInLeaf(n, c, s);
    } else {
      SetPrevList(n.kids[c[0]], h - 1, c[1..], s);
      if HasPrev(c[1..]) { SetPrevBelow(n, h, c, s); } else { SetPrevHere(n, h, c, s); }
    }
  }

  lemma LastInMiddle(a: seq<Segment>, m: seq<Segment>, e: seq<Segment>, b: seq<Segment>, s: Segment)
    requires 0 < |b| <= |m|
    ensures a + m[|b| - 1 := s] + e == (a + m + e)[|a + b| - 1 := s] && a + b[|b| - 1 := s] == (a + b)[|a + b| - 1 := s]
  {
  }

  lemma LastBefore(a: seq<Segment>, m: seq<Segment>, e: seq<Segment>, s: Segment)
    requires a != []
    ensures a[|a| - 1 := s] + m + e == (a + m + e)[|a| - 1 := s] && a + [] == a
    ensures a[|a| - 1 := s] + [] == a[|a| - 1 := s]
  {
  }

  lemma PrefixLast(segs: seq<Segment>, kids: seq<Node>, h: nat, s: Segment)
    requires segs != [] && |kids| == |segs|
    ensures var a, b := Prefix(segs, kids, h), Prefix(segs[|segs| - 1 := s], kids, h); a != [] && b == a[|a| - 1 := s]
  {
    hide Prefix;
    var m := |segs| - 1;
    var s2 := segs[m := s];
    PrefixStep(segs, kids, m, h);
    PrefixStep(s2, kids, m, h);
    assert segs[..m + 1] == segs && kids[..m + 1] == kids && s2[..m + 1] == s2 && s2[..m] == segs[..m];
  }
}
