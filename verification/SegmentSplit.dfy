/** Splitting a segment: its end is moved first, which leaves a gap that is not
    there in the end, and then the rest is inserted into that gap. */
module SegmentSplit {
  import opened SegmentList
  import opened SegmentNode
  import opened SegmentInsert
  import opened SegmentGaps
  import opened SegmentRemove
  import opened SegmentTree
  import opened SegmentLift
  import opened SegmentEdit

  function SetLeafGap(n: Node, h: nat, c: Coord, gap: int): Node
    requires At(n, h, c)
    decreases h
  {
    if h == 0 then n.(gap := gap) else n.(kids := n.kids[c[0] := SetLeafGap(n.kids[c[0]], h - 1, c[1..], gap)])
  }

  /** Y is x with the segment before the gap at d changed to s. The gap of the leaf
      is that in x, or exact for y. */
  ghost predicate Edited(x: Node, y: Node, h: nat, d: Coord, s: Segment, p: int, q: int) {
    && At(x, h, d) && At(y, h, d) && At(SetPrev(x, h, d, s), h, d)
    && y == SetLeafGap(SetPrev(x, h, d, s), h, d, LeafAt(y, h, d).gap)
    && (LeafAt(y, h, d).gap == LeafAt(x, h, d).gap || LeafExact(y, h, p, q, d))
  }

  /** Making room gives the same nodes before and after the change. */
  ghost predicate Commutes(r: Roomy, r2: Roomy, h: nat, s: Segment, p: int, q: int) {
    match r
    case One(x, d) => r2.One? && r2.c == d && Edited(x, r2.n, h, d, s, p, q)
    case Two(l, m, r, right, d) =>
      && r2.Two? && r2.right == right && r2.c == d
      && (if right then r2.l == l && r2.m == (if HasPrev(d) then m else s) && Edited(r, r2.r, h, d, s, r2.m.end, q)
          else r2.m == m && r2.r == r && Edited(l, r2.l, h, d, s, p, m.start))
  }

  lemma {:induction false} SetPrevAt(n: Node, h: nat, c: Coord, s: Segment)
    requires At(n, h, c)
    ensures At(SetPrev(n, h, c, s), h, c) && SetPrev(n, h, c, s).gap == n.gap && |SetPrev(n, h, c, s).segs| == |n.segs|
    ensures LeafAt(SetPrev(n, h, c, s), h, c).gap == LeafAt(n, h, c).gap
    ensures Slim(n, h, c) <==> Slim(SetPrev(n, h, c, s), h, c)
    decreases h
  {
    if h > 0 { SetPrevAt(n.kids[c[0]], h - 1, c[1..], s); }
  }

  lemma RoomCommutesInLeaf(n: Node, p: int, q: int, c: Coord, s: Segment)
    requires At(n, 0, c) && Slim(n, 0, c) && n.kids == [] && (c[0] > 0 ==> n.segs[c[0] - 1].start == s.start)
    ensures At(SetPrev(n, 0, c, s), 0, c) && Slim(SetPrev(n, 0, c, s), 0, c)
    ensures Commutes(Room(n, 0, p, q, c), Room(SetPrev(n, 0, c, s), 0, if HasPrev(c) then p else s.end, q, c), 0, s,
                     if HasPrev(c) then p else s.end, q)
  {
    var i, m, p2 := c[0], SetPrev(n, 0, c, s), if HasPrev(c) then p else s.end;
    assert HasPrev(c) <==> i > 0 by { assert !HasPrev(c[1..]); }
    if |n.segs| == MAX_DEGREE - 1 {
      if i < MIN_DEGREE {
        var l := LeftHalf(n, 0, p);
        assert m.segs[MIN_DEGREE..] == n.segs[MIN_DEGREE..];
        if i > 0 { assert m.segs[..MIN_DEGREE - 1] == n.segs[..MIN_DEGREE - 1][i - 1 := s]; }
      } else {
        var d := [i - MIN_DEGREE];
        assert HasPrev(d) <==> i > MIN_DEGREE by { assert !HasPrev(d[1..]); }
        assert m.segs[..MIN_DEGREE - 1] == n.segs[..MIN_DEGREE - 1];
        if i > MIN_DEGREE { assert m.segs[MIN_DEGREE..] == n.segs[MIN_DEGREE..][i - MIN_DEGREE - 1 := s]; }
      }
    }
  }

  /** One level up, with kid i changed from x to y. */
  lemma EditedUp(n: Node, n2: Node, h: nat, i: nat, x: Node, y: Node, d: Coord, s: Segment, p: int, q: int)
    requires h > 0 && i < |n.kids| == |n.segs| + 1 && n.kids[i] == x && n2.gap == n.gap
    requires n2.segs == (if !HasPrev(d) && i > 0 then n.segs[i - 1 := s] else n.segs) && n2.kids == n.kids[i := y]
    requires Edited(x, y, h - 1, d, s, Low(n2.segs, i, p), High(n2.segs, i, q))
    ensures Edited(n, n2, h, [i] + d, s, p, q)
  {
    var c := [i] + d;
    assert c[0] == i && c[1..] == d;
    var m := SetPrev(n, h, c, s);
    assert m.kids[i] == SetPrev(x, h - 1, d, s);
    assert At(m, h, c) && At(n2, h, c);
    assert m.kids[i := y] == n2.kids;
  }

  /** M is n with the segment before kid i changed to s, if that is the one before
      the gap, and with another kid i. */
  ghost predicate EditedAt(n: Node, m: Node, i: nat, s: Segment, below: bool) {
    && i < |n.kids| == |n.segs| + 1 == |m.kids| && m.gap == n.gap
    && m.segs == (if !below && i > 0 then n.segs[i - 1 := s] else n.segs)
    && (forall j :: 0 <= j < |n.kids| && j != i ==> m.kids[j] == n.kids[j]) && m.kids[i].gap == n.kids[i].gap
  }

  lemma WidenCommutes(n: Node, m: Node, h: nat, p: int, q: int, i: nat, s: Segment, below: bool,
                      l: Node, k: Segment, r: Node, l2: Node, k2: Segment, r2: Node, right: bool, d: Coord)
    requires h > 0 && EditedAt(n, m, i, s, below) && (if right then below else HasPrev(d) <==> below)
    requires Commutes(Two(l, k, r, right, d), Two(l2, k2, r2, right, d), h - 1, s,
                      Low(m.segs, i, p), High(m.segs, i, q))
    ensures Edited(Widen(n, i, l, k, r), Widen(m, i, l2, k2, r2), h, [if right then i + 1 else i] + d, s, p, q)
  {
    hide Edited;
    var w, w2 := Widen(n, i, l, k, r), Widen(m, i, l2, k2, r2);
    assert m.kids[..i] == n.kids[..i] && m.kids[i + 1..] == n.kids[i + 1..];
    if right {
      assert w2.segs == if HasPrev(d) then w.segs else w.segs[i := s];
      assert w2.kids == w.kids[i + 1 := r2];
      EditedUp(w, w2, h, i + 1, r, r2, d, s, p, q);
    } else {
      assert w2.segs == if !below && i > 0 then w.segs[i - 1 := s] else w.segs;
      assert w2.kids == w.kids[i := l2];
      EditedUp(w, w2, h, i, l, l2, d, s, p, q);
    }
  }

  /** The halves of a full node, when the gap is below kid i. */
  lemma HalvesCommute(n: Node, m: Node, h: nat, p: int, q: int, p2: int, i: nat, s: Segment, below: bool)
    requires h > 0 && EditedAt(n, m, i, s, below) && |n.segs| == MAX_DEGREE - 1
    ensures var a, b, a2, b2 := LeftHalf(n, h, p), RightHalf(n, h, q), LeftHalf(m, h, p2), RightHalf(m, h, q);
            if i < MIN_DEGREE
            then EditedAt(a, a2, i, s, below) && m.segs[MIN_DEGREE - 1] == n.segs[MIN_DEGREE - 1] && b2 == b
            else EditedAt(b, b2, i - MIN_DEGREE, s, below) && a2 == a
                 && m.segs[MIN_DEGREE - 1] == (if !below && i == MIN_DEGREE then s else n.segs[MIN_DEGREE - 1])
  {
    var k := MIN_DEGREE;
    assert m.kids == n.kids[i := m.kids[i]];
    if i < k {
      assert m.kids[k..] == n.kids[k..] && m.segs[k..] == n.segs[k..];
      assert m.kids[..k] == n.kids[..k][i := m.kids[i]];
      KidsGapUpdate(n.kids[..k], i, m.kids[i]);
      if !below && i > 0 { assert m.segs[..k - 1] == n.segs[..k - 1][i - 1 := s]; }
    } else {
      assert m.kids[..k] == n.kids[..k] && m.segs[..k - 1] == n.segs[..k - 1];
      assert m.kids[k..] == n.kids[k..][i - k := m.kids[i]];
      KidsGapUpdate(n.kids[k..], i - k, m.kids[i]);
      if !below && i > k { assert m.segs[k..] == n.segs[k..][i - k - 1 := s]; }
    }
  }

  /** HasPrev says whether anything is before the gap. */
  lemma HasPrevIff(n: Node, h: nat, c: Coord, s: Segment)
    requires At(n, h, c)
    ensures HasPrev(c) <==> Before(n, h, c) != []
  {
    SetPrevList(n, h, c, s);
  }

  lemma RoomCommutesWidening(n: Node, m: Node, h: nat, p: int, q: int, p2: int, i: nat, s: Segment, below: bool,
                             l: Node, k: Segment, r: Node, l2: Node, k2: Segment, r2: Node, right: bool, d: Coord)
    requires h > 0 && EditedAt(n, m, i, s, below) && |n.segs| == MAX_DEGREE - 1
    requires (if right then below else HasPrev(d) <==> below) && p2 == (if below || i > 0 then p else s.end)
    requires Commutes(Two(l, k, r, right, d), Two(l2, k2, r2, right, d), h - 1, s,
                      Low(m.segs, i, p2), High(m.segs, i, q))
    ensures var a, b, a2, b2 := LeftHalf(n, h, p), RightHalf(n, h, q), LeftHalf(m, h, p2), RightHalf(m, h, q);
            var j := if right then i + 1 else i;
            var y, y2 := n.segs[MIN_DEGREE - 1], m.segs[MIN_DEGREE - 1];
            if i < MIN_DEGREE
            then Commutes(Two(Widen(a, i, l, k, r), y, b, false, [j] + d),
                          Two(Widen(a2, i, l2, k2, r2), y2, b2, false, [j] + d), h, s, p2, q)
            else Commutes(Two(a, y, Widen(b, i - MIN_DEGREE, l, k, r), true, [j - MIN_DEGREE] + d),
                          Two(a2, y2, Widen(b2, i - MIN_DEGREE, l2, k2, r2), true, [j - MIN_DEGREE] + d), h, s, p2, q)
  {
    hide Edited, Widen, MaxGap, KidsGap;
    var a, b, a2, b2 := LeftHalf(n, h, p), RightHalf(n, h, q), LeftHalf(m, h, p2), RightHalf(m, h, q);
    var j := if right then i + 1 else i;
    var y, y2 := n.segs[MIN_DEGREE - 1], m.segs[MIN_DEGREE - 1];
    HalvesCommute(n, m, h, p, q, p2, i, s, below);
    if i < MIN_DEGREE {
      assert Low(a2.segs, i, p2) == Low(m.segs, i, p2) && High(a2.segs, i, y.start) == High(m.segs, i, q);
      WidenCommutes(a, a2, h, p2, y.start, i, s, below, l, k, r, l2, k2, r2, right, d);
    } else {
      var e := [j - MIN_DEGREE] + d;
      assert e[1..] == d;
      assert Low(b2.segs, i - MIN_DEGREE, y2.end) == Low(m.segs, i, p2);
      assert High(b2.segs, i - MIN_DEGREE, q) == High(m.segs, i, q);
      WidenCommutes(b, b2, h, y2.end, q, i - MIN_DEGREE, s, below, l, k, r, l2, k2, r2, right, d);
    }
  }

  lemma {:induction false} RoomCommutes(n: Node, h: nat, p: int, q: int, c: Coord, s: Segment)
    requires Sound(n, h, p, q) && At(n, h, c) && Slim(n, h, c) && PrevStart(n, h, c, s.start) == s.start
    ensures At(SetPrev(n, h, c, s), h, c) && Slim(SetPrev(n, h, c, s), h, c)
    ensures var p2 := if HasPrev(c) then p else s.end;
            Commutes(Room(n, h, p, q, c), Room(SetPrev(n, h, c, s), h, p2, q, c), h, s, p2, q)
    decreases h
  {
    hide Commutes, Edited, MakesRoom, Flatten, SoundKids, LeftHalf, RightHalf;
    SetPrevAt(n, h, c, s);
    if h == 0 {
      SetPrevIsSetSeg(n, 0, c, s);
      RoomCommutesInLeaf(n, p, q, c, s);
    } else {
      var i, d, m, p2 := c[0], c[1..], SetPrev(n, h, c, s), if HasPrev(c) then p else s.end;
      var lo, hi := Low(n.segs, i, p), High(n.segs, i, q);
      KidIsSound(n, h, p, q, i);
      SetPrevKid(n, h, c, s);
      SetPrevIsSetSeg(n.kids[i], h - 1, d, s);
      SetPrevAt(n.kids[i], h - 1, d, s);
      RoomCommutes(n.kids[i], h - 1, lo, hi, d, s);
      RoomIsMade(n.kids[i], h - 1, lo, hi, d);
      assert Low(m.segs, i, p2) == (if HasPrev(d) then lo else s.end) && High(m.segs, i, q) == hi;
      assert m.kids[i] == SetPrev(n.kids[i], h - 1, d, s);
      assert EditedAt(n, m, i, s, HasPrev(d));
      RoomCommutesUp(n, m, h, p, q, p2, i, s, d, Room(n.kids[i], h - 1, lo, hi, d),
                     Room(m.kids[i], h - 1, Low(m.segs, i, p2), High(m.segs, i, q), d));
    }
  }

  lemma RoomCommutesUp(n: Node, m: Node, h: nat, p: int, q: int, p2: int, i: nat, s: Segment, d: Coord, r: Roomy,
                       r2: Roomy)
    requires h > 0 && EditedAt(n, m, i, s, HasPrev(d)) && m.kids == n.kids[i := m.kids[i]] && |n.segs| < MAX_DEGREE
    requires p2 == (if i > 0 || HasPrev(d) then p else s.end)
    requires At(n.kids[i], h - 1, d) && MakesRoom(n.kids[i], h - 1, Low(n.segs, i, p), High(n.segs, i, q), d, r)
    requires Commutes(r, r2, h - 1, s, Low(m.segs, i, p2), High(m.segs, i, q))
    ensures Commutes(RoomOver(n, h, p, q, i, r), RoomOver(m, h, p2, q, i, r2), h, s, p2, q)
  {
    hide Edited, Sound, Flatten, LeftHalf, RightHalf, Widen, At, Before;
    HasPrevIff(n.kids[i], h - 1, d, s);
    match r
    case One(x, e) =>
      HasPrevIff(x, h - 1, e, s);
      RoomCommutesOne(n, m, h, p2, q, i, s, d, x, r2.n, e);
    case Two(l, k, rr, right, e) =>
      HasPrevIff(if right then rr else l, h - 1, e, s);
      if |n.segs| < MAX_DEGREE - 1 {
        WidenCommutes(n, m, h, p2, q, i, s, HasPrev(d), l, k, rr, r2.l, r2.m, r2.r, right, e);
      } else {
        RoomCommutesWidening(n, m, h, p, q, p2, i, s, HasPrev(d), l, k, rr, r2.l, r2.m, r2.r, right, e);
      }
  }

  lemma RoomCommutesOne(n: Node, m: Node, h: nat, p2: int, q: int, i: nat, s: Segment, d: Coord, x: Node, y: Node,
                        e: Coord)
    requires h > 0 && EditedAt(n, m, i, s, HasPrev(d)) && m.kids == n.kids[i := m.kids[i]]
    requires (HasPrev(e) <==> HasPrev(d))
    requires Edited(x, y, h - 1, e, s, Low(m.segs, i, p2), High(m.segs, i, q))
    ensures Edited(n.(kids := n.kids[i := x]), m.(kids := m.kids[i := y]), h, [i] + e, s, p2, q)
  {
    hide Edited;
    var w, w2 := n.(kids := n.kids[i := x]), m.(kids := m.kids[i := y]);
    assert w2.kids == w.kids[i := y];
    EditedUp(w, w2, h, i, x, y, e, s, p2, q);
  }

  // ----- the whole tree -----

  lemma RoomInTreeCommutes(t: Tree, p: int, q: int, c: Coord, s: Segment)
    requires SoundTree(t, p, q) && At(t.root, t.h, c) && HasPrev(c) && PrevStart(t.root, t.h, c, s.start) == s.start
    ensures Slim(t.root, t.h, c) && At(SetPrev(t.root, t.h, c, s), t.h, c) && Slim(SetPrev(t.root, t.h, c, s), t.h, c)
    ensures var (u, d), (u2, d2) := RoomInTree(t, p, q, c), RoomInTree(t.(root := SetPrev(t.root, t.h, c, s)), p, q, c);
            d2 == d && u2.h == u.h && Edited(u.root, u2.root, u.h, d, s, p, q)
  {
    hide Edited, Sound;
    SoundIsSlim(t.root, t.h, p, q, c);
    RoomCommutes(t.root, t.h, p, q, c, s);
    SetPrevAt(t.root, t.h, c, s);
    match Room(t.root, t.h, p, q, c)
    case One(x, d) =>
    case Two(l, m, r, right, d) =>
      var r2 := Room(SetPrev(t.root, t.h, c, s), t.h, p, q, c);
      var w, w2, i := Node([m], [l, r], t.root.gap), Node([r2.m], [r2.l, r2.r], t.root.gap), if right then 1 else 0;
      assert w2.kids == w.kids[i := if right then r2.r else r2.l];
      EditedUp(w, w2, t.h + 1, i, if right then r else l, if right then r2.r else r2.l, d, s, p, q);
  }

  /** A leaf gap that was too large is corrected without a change above it. */
  lemma {:induction false} RefreshRestores(n: Node, h: nat, p: int, q: int, c: Coord, gap: int)
    requires At(n, h, c) && Along(n, h, p, q, c) && LeafExact(n, h, p, q, c) && gap >= LeafAt(n, h, c).gap
    ensures At(SetLeafGap(n, h, c, gap), h, c)
    ensures var (x, news) := Refresh(SetLeafGap(n, h, c, gap), h, p, q, c);
            x == n && (news.Settled? || news == Shrank(gap))
    decreases h
  {
    hide SoundPrefix, SoundSuffix, KidsGap, Flatten;
    if h > 0 {
      var i := c[0];
      RefreshRestores(n.kids[i], h - 1, Low(n.segs, i, p), High(n.segs, i, q), c[1..], gap);
      var y := SetLeafGap(n, h, c, gap);
      assert y.kids[i := n.kids[i]] == n.kids;
    }
  }

  /** The leaf with the gap, after the end has been moved. */
  lemma {:induction false} SetPrevLeaf(n: Node, h: nat, p: int, q: int, c: Coord, s: Segment)
    requires At(n, h, c) && HasPrev(c)
    ensures At(SetPrev(n, h, c, s), h, c)
    ensures var m, a, b := SetPrev(n, h, c, s), LeafAt(n, h, c), LeafAt(SetPrev(n, h, c, s), h, c);
            && b.gap == a.gap && LeafHigh(m, h, q, c) == LeafHigh(n, h, q, c)
            && (if c[h] > 0 then b.segs == a.segs[c[h] - 1 := s] && LeafLow(m, h, p, c) == LeafLow(n, h, p, c)
                else b.segs == a.segs && LeafLow(m, h, p, c) == s.end)
    decreases h
  {
    SetPrevAt(n, h, c, s);
    if h > 0 {
      var i, d := c[0], c[1..];
      assert d[h - 1] == c[h];
      if HasPrev(d) {
        SetPrevLeaf(n.kids[i], h - 1, Low(n.segs, i, p), High(n.segs, i, q), d, s);
      } else {
        SetPrevIsSetSeg(n.kids[i], h - 1, d, s);
        FirstLeaf(n.kids[i], h - 1, s.end, d);
      }
    }
  }

  lemma {:induction false} FirstLeaf(n: Node, h: nat, p: int, c: Coord)
    requires At(n, h, c) && !HasPrev(c)
    ensures LeafLow(n, h, p, c) == p && c[h] == 0
    decreases h
  {
    if h > 0 {
      assert c[1..][h - 1] == c[h];
      FirstLeaf(n.kids[0], h - 1, p, c[1..]);
    }
  }

  lemma {:induction false} SetLeafGapLeaf(n: Node, h: nat, p: int, q: int, c: Coord, gap: int, segs: seq<Segment>)
    requires At(n, h, c) && c[h] <= |segs|
    ensures var y := SetLeafGap(n, h, c, gap);
            && At(y, h, c) && LeafAt(y, h, c) == LeafAt(n, h, c).(gap := gap)
            && LeafLow(y, h, p, c) == LeafLow(n, h, p, c) && LeafHigh(y, h, q, c) == LeafHigh(n, h, q, c)
            && At(SetLeaf(n, h, c, segs), h, c)
            && SetLeaf(y, h, c, segs) == SetLeafGap(SetLeaf(n, h, c, segs), h, c, gap)
            && (gap == LeafAt(n, h, c).gap ==> y == n)
    decreases h
  {
    if h > 0 {
      var i := c[0];
      assert c[1..][h - 1] == c[h];
      SetLeafGapLeaf(n.kids[i], h - 1, Low(n.segs, i, p), High(n.segs, i, q), c[1..], gap, segs);
      if gap == LeafAt(n, h, c).gap { assert n.kids[i := n.kids[i]] == n.kids; }
    }
  }

  /** The cached gap of the leaf is right for the two parts as it was for the whole. */
  lemma SplitLeafIsExact(x: Node, h: nat, p: int, q: int, d: Coord, a: Segment, b: Segment)
    requires Sound(x, h, p, q) && At(x, h, d) && HasPrev(d) && SplitsPrev(x, h, p, q, d, a, b)
    ensures At(SetPrev(x, h, d, a), h, d)
    ensures var e := SetPrev(x, h, d, a);
            var leaf, j := LeafAt(e, h, d), d[h];
            LeafAt(x, h, d).gap
            == MaxGap(LeafLow(e, h, p, d), leaf.segs[..j] + [b] + leaf.segs[j..], LeafHigh(e, h, q, d))
  {
    hide Sound, Flatten, Before, Along, LeafAt, LeafLow, LeafHigh, SetPrev, LeafExact, LeafSize, BeforeLeaf, AfterLeaf;
    SetPrevLeaf(x, h, p, q, d, a);
    AlongSound(x, h, p, q, d);
    LeafExactAt(x, h, p, q, d);
    GapEnds(x, h, p, q, d);
    FlattenAtLeaf(x, h, d);
    var leaf, j, lo, hi := LeafAt(x, h, d), d[h], LeafLow(x, h, p, d), LeafHigh(x, h, q, d);
    MaxGapIsMax(leaf.segs, lo, hi);
    assert MaxGap(lo, leaf.segs, hi) >= GapLength(leaf.segs, j, lo, hi) >= 0;
    if j > 0 {
      assert Before(x, h, d)[|Before(x, h, d)| - 1] == leaf.segs[j - 1];
      BeforeIsPrefix(x, h, d);
      MaxGapSplit(lo, leaf.segs, hi, j, a, b);
    } else {
      assert lo == b.end;
      assert leaf.segs[..0] + [b] + leaf.segs[0..] == [b] + leaf.segs;
      assert ([b] + leaf.segs)[1..] == leaf.segs;
    }
  }

  /** Whatever the gap of the leaf had become, the insertion ends in f. */
  lemma SplitInserts(y: Node, e: Node, f: Node, h: nat, p: int, q: int, d: Coord, b: Segment)
    requires At(e, h, d) && At(y, h, d) && At(f, h, d) && Along(f, h, p, q, d) && LeafExact(f, h, p, q, d)
    requires y == SetLeafGap(e, h, d, LeafAt(y, h, d).gap)
    requires f == SetLeaf(e, h, d, LeafAt(e, h, d).segs[..d[h]] + [b] + LeafAt(e, h, d).segs[d[h]..])
    requires LeafAt(f, h, d).gap == LeafAt(e, h, d).gap
    requires LeafAt(y, h, d).gap == LeafAt(e, h, d).gap || LeafExact(y, h, p, q, d)
    requires LeafAt(f, h, d).segs == LeafAt(e, h, d).segs[..d[h]] + [b] + LeafAt(e, h, d).segs[d[h]..]
    requires LeafLow(f, h, p, d) == LeafLow(e, h, p, d) && LeafHigh(f, h, q, d) == LeafHigh(e, h, q, d)
    requires var l, j := LeafAt(e, h, d).segs, d[h];
             GapStart(l, j, LeafLow(e, h, p, d)) <= b.start <= b.end <= GapEnd(l, j, LeafHigh(e, h, q, d))
    ensures InsertInLeaf(y, h, p, q, d, b) == f
  {
    hide Along, SetLeaf, SetLeafGap, LeafAt, LeafLow, LeafHigh, LeafExact;
    var l, j, lo, hi, g := LeafAt(e, h, d).segs, d[h], LeafLow(e, h, p, d), LeafHigh(e, h, q, d), LeafAt(y, h, d).gap;
    var segs := l[..j] + [b] + l[j..];
    SetLeafGapLeaf(e, h, p, q, d, g, segs);
    SetLeafGapLeaf(f, h, p, q, d, g, segs);
    LeafExactAt(y, h, p, q, d);
    LeafExactAt(f, h, p, q, d);
    MaxGapShrinks(lo, l, hi, j, b);
    if g == LeafAt(f, h, d).gap {
      RefreshRestores(f, h, p, q, d, g);
    } else if l == [] || GapLength(l, j, lo, hi) == g {
      RefreshRestores(f, h, p, q, d, g);
    } else {
      MaxGapDivided(lo, l, hi, j, b);
    }
  }

  /** The two parts of a segment stand where it was, and the gaps are exact, although
      they have been computed with a gap that was never to stay. X is the tree
      before the end is moved, y the tree after it, and room has been made in both. */
  lemma SplitInLeaf(x: Node, y: Node, h: nat, p: int, q: int, d: Coord, a: Segment, b: Segment)
    requires Sound(x, h, p, q) && At(x, h, d) && HasPrev(d) && LeafSize(x, h, d) < MAX_DEGREE - 1
    requires Edited(x, y, h, d, a, p, q) && PrevStart(x, h, d, a.start) == a.start
    requires SplitsPrev(x, h, p, q, d, a, b)
    ensures var z := InsertInLeaf(y, h, p, q, d, b);
            var l, k := Flatten(x, h), |Before(x, h, d)|;
            && Sound(z, h, p, q) && At(z, h, d) && Before(z, h, d) == l[..k][k - 1 := a]
            && Flatten(z, h) == l[..k - 1] + [a, b] + l[k..] && |z.segs| >= |x.segs| && d[h] < LeafSize(z, h, d)
  {
    hide Sound, Along, Flatten, Edited, Before, InsertInLeaf, SetLeaf, LeafAt;
    hide LeafLow, LeafHigh, SetPrev, LeafExact, BeforeLeaf, AfterLeaf, MaxGap;
    var e := SetPrev(x, h, d, a);
    AlongSound(x, h, p, q, d);
    SetPrevAlong(x, h, p, q, d, a);
    SetPrevList(x, h, d, a);
    BeforeIsPrefix(x, h, d);
    var leaf, j := LeafAt(e, h, d), d[h];
    var segs := leaf.segs[..j] + [b] + leaf.segs[j..];
    var f := SetLeaf(e, h, d, segs);
    assert d[..h] + [j] == d;
    FlattenAtLeaf(e, h, d);
    SetLeafAlong(e, h, p, q, d, segs, j);
    FlattenAtLeaf(f, h, d);
    InsertedList(BeforeLeaf(e, h, d), leaf.segs, AfterLeaf(e, h, d), j, b);
    SplitLeafIsExact(x, h, p, q, d, a, b);
    LeafExactAt(f, h, p, q, d);
    SplitGapEnds(x, h, p, q, d, a, b);
    SplitEdited(x, y, h, p, q, d, a);
    SplitInserts(y, e, f, h, p, q, d, b);
    LeafIsLarge(x, h, p, q, d);
    SoundAlong(f, h, p, q, d);
    assert segs[..j] == leaf.segs[..j];
    SplitList(Flatten(x, h), |Before(x, h, d)|, a, b);
  }

  /** A and b are the two parts of the segment before the gap at d. */
  ghost predicate SplitsPrev(n: Node, h: nat, p: int, q: int, d: Coord, a: Segment, b: Segment)
    requires At(n, h, d)
  {
    var l, k := Flatten(n, h), |Before(n, h, d)|;
    && 0 < k <= |l| && l[k - 1].start == a.start <= a.end == b.start <= b.end == l[k - 1].end
    && GapLength(l, k, p, q) >= 0
  }

  lemma SplitList(l: seq<Segment>, k: nat, a: Segment, b: Segment)
    requires 0 < k <= |l|
    ensures var m := l[k - 1 := a];
            m[..k] + [b] + m[k..] == l[..k - 1] + [a, b] + l[k..] && m[..k] == l[..k][k - 1 := a]
  {
  }

  /** The rest of the segment fits into the gap its other part leaves. */
  lemma SplitGapEnds(x: Node, h: nat, p: int, q: int, d: Coord, a: Segment, b: Segment)
    requires At(x, h, d) && HasPrev(d) && SplitsPrev(x, h, p, q, d, a, b)
    ensures At(SetPrev(x, h, d, a), h, d)
    ensures var e := SetPrev(x, h, d, a);
            GapStart(LeafAt(e, h, d).segs, d[h], LeafLow(e, h, p, d)) == b.start
            && b.end <= GapEnd(LeafAt(e, h, d).segs, d[h], LeafHigh(e, h, q, d))
  {
    hide Flatten, Before;
    SetPrevList(x, h, d, a);
    SetPrevAt(x, h, d, a);
    GapEnds(SetPrev(x, h, d, a), h, p, q, d);
    BeforeIsPrefix(x, h, d);
  }

  lemma SplitEdited(x: Node, y: Node, h: nat, p: int, q: int, d: Coord, a: Segment)
    requires Edited(x, y, h, d, a, p, q)
    ensures At(x, h, d) && At(y, h, d) && At(SetPrev(x, h, d, a), h, d)
    ensures var e := SetPrev(x, h, d, a);
            && y == SetLeafGap(e, h, d, LeafAt(y, h, d).gap)
            && (LeafAt(y, h, d).gap == LeafAt(e, h, d).gap || LeafExact(y, h, p, q, d))
  {
    SetPrevAt(x, h, d, a);
  }

  /** SplitUnchecked, of the segment before the gap at c into a and b: the end is
      moved, and the rest inserted into the gap. */
  function SplitTree(t: Tree, p: int, q: int, c: Coord, a: Segment, b: Segment): (Tree, Coord)
    requires At(t.root, t.h, c) && Slim(t.root, t.h, c)
  {
    SetPrevAt(t.root, t.h, c, a);
    Inserted(t.(root := SetPrev(t.root, t.h, c, a)), p, q, c, b)
  }

  lemma SplitTreeIsGood(t: Tree, p: int, q: int, c: Coord, a: Segment, b: Segment)
    requires SoundTree(t, p, q) && At(t.root, t.h, c) && SplitsPrev(t.root, t.h, p, q, c, a, b)
    ensures Slim(t.root, t.h, c)
    ensures var (u, d) := SplitTree(t, p, q, c, a, b);
            var l, k := Segments(t), |Before(t.root, t.h, c)|;
            SoundTree(u, p, q) && Segments(u) == l[..k - 1] + [a, b] + l[k..] && GapAt(u, d, k)
              && d[u.h] < LeafSize(u.root, u.h, d)
  {
    hide Sound, Flatten, Edited, RoomInTree, InsertInLeaf, SetPrev, PrevSeg;
    hide BeforeSeg, SegOf, Before, LeafSize, Slim, At, HasPrev;
    var l, k := Segments(t), |Before(t.root, t.h, c)|;
    SetPrevList(t.root, t.h, c, a);
    SoundIsShaped(t.root, t.h, p, q);
    PrevSegAt(t.root, t.h, c);
    BeforeIsPrefix(t.root, t.h, c);
    assert PrevStart(t.root, t.h, c, a.start) == a.start;
    RoomInTreeCommutes(t, p, q, c, a);
    RoomInTreeIsMade(t, p, q, c);
    var (x, d) := RoomInTree(t, p, q, c);
    var (y, d2) := RoomInTree(t.(root := SetPrev(t.root, t.h, c, a)), p, q, c);
    SoundIsShaped(x.root, x.h, p, q);
    PrevSegAt(x.root, x.h, d);
    SetPrevList(x.root, x.h, d, a);
    SetPrevIsSetSeg(x.root, x.h, d, a);
    SplitInLeaf(x.root, y.root, x.h, p, q, d, a, b);
  }
}
