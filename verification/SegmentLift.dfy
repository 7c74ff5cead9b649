/** Removing a segment that is not in a leaf: its predecessor, the last one of a
    leaf, takes its place. In between, the tree holds that segment twice and two
    leaves have gaps that are out of date. */
module SegmentLift {
  import opened SegmentList
  import opened SegmentNode
  import opened SegmentInsert
  import opened SegmentGaps
  import opened SegmentRemove
  import opened SegmentTree

  /** A segment is named by the kids on the way to its node, and its index there. */
  ghost predicate SegIn(n: Node, h: nat, sc: Coord)
    decreases h
  {
    && 1 <= |sc| <= h + 1 && (h > 0 ==> |n.kids| == |n.segs| + 1)
    && (if |sc| == 1 then sc[0] < |n.segs| else sc[0] <= |n.segs| && SegIn(n.kids[sc[0]], h - 1, sc[1..]))
  }

  function SegOf(n: Node, h: nat, sc: Coord): Segment
    requires SegIn(n, h, sc)
    decreases h
  {
    if |sc| == 1 then n.segs[sc[0]] else SegOf(n.kids[sc[0]], h - 1, sc[1..])
  }

  function SetSeg(n: Node, h: nat, sc: Coord, s: Segment): Node
    requires SegIn(n, h, sc)
    decreases h
  {
    if |sc| == 1 then n.(segs := n.segs[sc[0] := s])
    else n.(kids := n.kids[sc[0] := SetSeg(n.kids[sc[0]], h - 1, sc[1..], s)])
  }

  /** The segments before a segment: its place in the set. */
  ghost function BeforeSeg(n: Node, h: nat, sc: Coord): seq<Segment>
    requires SegIn(n, h, sc)
    decreases h
  {
    var i := sc[0];
    if h == 0 then n.segs[..i]
    else Prefix(n.segs[..i], n.kids[..i], h - 1)
           + (if |sc| == 1 then Flatten(n.kids[i], h - 1) else BeforeSeg(n.kids[i], h - 1, sc[1..]))
  }

  /** The first and the last gap below a node. */
  function First(h: nat): Coord { if h == 0 then [0] else [0] + First(h - 1) }

  function Last(n: Node, h: nat): Coord
    decreases h
  {
    if h == 0 || |n.kids| != |n.segs| + 1 then [|n.segs|] else [|n.segs|] + Last(n.kids[|n.segs|], h - 1)
  }

  /** The gaps before and after a segment. */
  function GapBefore(n: Node, h: nat, sc: Coord): Coord
    requires SegIn(n, h, sc)
    decreases h
  {
    if h == 0 then sc
    else [sc[0]] + (if |sc| == 1 then Last(n.kids[sc[0]], h - 1) else GapBefore(n.kids[sc[0]], h - 1, sc[1..]))
  }

  function GapAfter(n: Node, h: nat, sc: Coord): Coord
    requires SegIn(n, h, sc)
    decreases h
  {
    if h == 0 then [sc[0] + 1]
    else if |sc| == 1 then [sc[0] + 1] + First(h - 1)
    else [sc[0]] + GapAfter(n.kids[sc[0]], h - 1, sc[1..])
  }

  lemma {:induction false} FirstAt(n: Node, h: nat)
    requires Shaped(n, h)
    ensures At(n, h, First(h)) && Before(n, h, First(h)) == []
    decreases h
  {
    if h > 0 {
      FirstAt(n.kids[0], h - 1);
      assert First(h)[1..] == First(h - 1);
      assert n.segs[..0] == [] && n.kids[..0] == [];
    }
  }

  lemma {:induction false} LastAt(n: Node, h: nat)
    requires Shaped(n, h)
    ensures At(n, h, Last(n, h)) && Before(n, h, Last(n, h)) == Flatten(n, h)
    ensures Last(n, h)[h] == LeafSize(n, h, Last(n, h))
    decreases h
  {
    hide Prefix, Suffix, Weave;
    if h > 0 {
      var m, c := |n.segs|, Last(n, h);
      LastAt(n.kids[m], h - 1);
      assert c[1..] == Last(n.kids[m], h - 1) && c[h] == c[1..][h - 1];
      KidFlatten(n, h, m, n.kids[m]);
      assert n.segs[m..] == [] && n.kids[m + 1..] == [];
      SuffixStart([], [], h - 1);
    }
  }

  /** The gap before a segment has the same segments before it. */
  lemma {:induction false} GapBeforeAt(n: Node, h: nat, sc: Coord)
    requires Shaped(n, h) && SegIn(n, h, sc)
    ensures var c := GapBefore(n, h, sc); At(n, h, c) && Before(n, h, c) == BeforeSeg(n, h, sc)
    decreases h
  {
    hide Prefix, Flatten, Last;
    if h > 0 {
      var i, c := sc[0], GapBefore(n, h, sc);
      if |sc| == 1 {
        LastAt(n.kids[i], h - 1);
        assert c[1..] == Last(n.kids[i], h - 1);
      } else {
        GapBeforeAt(n.kids[i], h - 1, sc[1..]);
        assert c[1..] == GapBefore(n.kids[i], h - 1, sc[1..]);
      }
    }
  }

  lemma {:induction false} GapAfterAt(n: Node, h: nat, sc: Coord)
    requires Shaped(n, h) && SegIn(n, h, sc)
    ensures var c := GapAfter(n, h, sc); At(n, h, c) && Before(n, h, c) == BeforeSeg(n, h, sc) + [SegOf(n, h, sc)]
    decreases h
  {
    hide Prefix, Weave;
    if h > 0 {
      var i, c := sc[0], GapAfter(n, h, sc);
      if |sc| == 1 {
        FirstAt(n.kids[i + 1], h - 1);
        assert c[1..] == First(h - 1);
        PrefixStep(n.segs, n.kids, i, h - 1);
      } else {
        GapAfterAt(n.kids[i], h - 1, sc[1..]);
        assert c[1..] == GapAfter(n.kids[i], h - 1, sc[1..]);
      }
    }
  }

  // ----- the predecessor takes the place -----

  /** How a node's gap is corrected when kid i has become x. */
  lemma NewsStep(kids: seq<Node>, i: nat, x: Node, gap: int, news: News)
    requires i < |kids| && gap == KidsGap(kids) && NewsFits(kids[i].gap, x.gap, news)
    ensures var g2 := KidsGap(kids[i := x]);
            match news
            case Settled => g2 == gap
            case Grew(max) => if gap >= max then g2 == gap else g2 == max > gap
            case Shrank(was) => if gap > was then g2 == gap else g2 <= gap == was
  {
    hide KidsGap;
    KidsGapUpdate(kids, i, x);
  }

  /** The gap one segment earlier in the same leaf. */
  function StepBack(c: Coord): Coord
    requires c != []
  {
    var m := |c| - 1;
    c[..m] + [if c[m] > 0 then c[m] - 1 else 0]
  }

  /** Below the left kid, only the bound of the last leaf has changed. */
  lemma {:induction false} LastAlong(n: Node, h: nat, p: int, q: int, q2: int)
    requires |Last(n, h)| == h + 1 && At(n, h, Last(n, h)) && Along(n, h, p, q, Last(n, h))
    requires LeafSize(n, h, Last(n, h)) > 0
    ensures var c := StepBack(Last(n, h));
            && At(n, h, c) && Along(n, h, p, q2, c)
            && LeafSize(n, h, c) == LeafSize(n, h, Last(n, h)) == c[h] + 1
            && Flatten(n, h) != [] && Before(n, h, c) == Flatten(n, h)[..|Flatten(n, h)| - 1]
    decreases h
  {
    hide Prefix, Suffix, Weave, MaxGap, SoundPrefix;
    if h > 0 {
      var m := |n.segs|;
      var x, c, d := n.kids[m], StepBack(Last(n, h)), StepBack(Last(n.kids[m], h - 1));
      assert Last(n, h)[1..] == Last(x, h - 1);
      LastAlong(x, h - 1, Low(n.segs, m, p), High(n.segs, m, q), q2);
      assert c == [m] + d;
      assert c[1..] == d && c[h] == d[h - 1];
      KidFlatten(n, h, m, x);
      assert n.segs[m..] == [] && n.kids[m + 1..] == [];
      SuffixStart([], [], h - 1);
    }
  }

  /** Below the right kid, only the bound of the first leaf has changed. */
  lemma {:induction false} FirstAlong(n: Node, h: nat, p: int, q: int, p2: int)
    requires Sound(n, h, p, q)
    ensures At(n, h, First(h)) && Along(n, h, p2, q, First(h)) && (h > 0 ==> LeafSize(n, h, First(h)) >= MIN_DEGREE - 1)
    ensures h == 0 ==> LeafSize(n, h, First(h)) == |n.segs|
    decreases h
  {
    hide Prefix, Suffix, Weave, MaxGap;
    SoundIsShaped(n, h, p, q);
    FirstAt(n, h);
    if h > 0 {
      AlongSound(n, h, p, q, First(h));
      KidIsSound(n, h, p, q, 0);
      assert First(h)[1..] == First(h - 1);
      FirstAlong(n.kids[0], h - 1, p, High(n.segs, 0, q), p2);
    }
  }

  lemma FirstRefreshed(y: Node, h: nat, p: int, q: int, p2: int)
    requires Full(y, h, p, q)
    ensures At(y, h, First(h))
    ensures var (x, news) := Refresh(y, h, p2, q, First(h));
            Full(x, h, p2, q) && Flatten(x, h) == Flatten(y, h) && NewsFits(y.gap, x.gap, news)
  {
    hide Along;
    FirstAlong(y, h, p, q, p2);
    RefreshIsExact(y, h, p2, q, First(h));
    SoundAlong(Refresh(y, h, p2, q, First(h)).0, h, p2, q, First(h));
  }

  /** Segment sc is replaced by s, and the leaf after it brought up to date: then
      all is well but the leaf with the predecessor. */
  ghost predicate LiftedTo(n: Node, h: nat, p: int, q: int, sc: Coord, s: Segment, x: Node, news: News)
    requires SegIn(n, h, sc)
  {
    var c, k, l := GapBefore(n, h, sc), |BeforeSeg(n, h, sc)|, Flatten(n, h);
    && NewsFits(n.gap, x.gap, news) && |x.segs| == |n.segs|
    && |c| == h + 1 && At(x, h, StepBack(c)) && Along(x, h, p, q, StepBack(c))
    && LeafSize(x, h, StepBack(c)) == StepBack(c)[h] + 1 >= MIN_DEGREE - 1
    && 0 < k < |l| && Flatten(x, h) == l[k := s] && Before(x, h, StepBack(c)) == l[..k - 1]
  }

  /** All is well with n but for the leaf before the segment at sc. */
  ghost predicate Liftable(n: Node, h: nat, p: int, q: int, sc: Coord) {
    && SegIn(n, h, sc) && |sc| <= h && |GapBefore(n, h, sc)| == h + 1
    && At(n, h, GapBefore(n, h, sc)) && Along(n, h, p, q, GapBefore(n, h, sc))
    && LeafSize(n, h, GapBefore(n, h, sc)) >= MIN_DEGREE - 1
  }

  lemma LiftedHere(n: Node, h: nat, p: int, q: int, i: nat, s: Segment)
    requires Liftable(n, h, p, q, [i])
    ensures At(SetSeg(n, h, [i], s), h, GapAfter(n, h, [i]))
    ensures var (x, news) := Refresh(SetSeg(n, h, [i], s), h, p, q, GapAfter(n, h, [i]));
            LiftedTo(n, h, p, q, [i], s, x, news)
  {
    hide Prefix, Suffix, Weave, MaxGap, SoundKids, SoundPrefix, SoundSuffix, KidsGap, Sound, Full;
    var g, l, r, hi := h - 1, n.kids[i], n.kids[i + 1], High(n.segs, i + 1, q);
    PairAt(n, i, p, q);
    SoundSuffixOneMore(n.segs[i], r, n.segs[i + 1..], n.kids[i + 2..], g, q);
    FirstRefreshed(r, g, n.segs[i].end, hi, s.end);
    var (y, news) := Refresh(r, g, s.end, hi, First(g));
    var n1, c2 := SetSeg(n, h, [i], s), GapAfter(n, h, [i]);
    assert c2[0] == i + 1 && c2[1..] == First(g);
    assert At(n1, h, c2);
    var (x, news2) := Refresh(n1, h, p, q, c2);
    LiftedShape(n, h, p, q, i, s, y, news);
    LiftedAlong(n, h, p, q, i, s, y, x);
    LiftedList(n, h, i, s, y, x);
  }

  lemma LiftedShape(n: Node, h: nat, p: int, q: int, i: nat, s: Segment, y: Node, news: News)
    requires h > 0 && i < |n.segs| && SegIn(n, h, [i]) && n.gap == KidsGap(n.kids)
    requires At(n.kids[i + 1], h - 1, First(h - 1))
    requires (y, news) == Refresh(n.kids[i + 1], h - 1, s.end, High(n.segs, i + 1, q), First(h - 1))
    requires NewsFits(n.kids[i + 1].gap, y.gap, news) && At(SetSeg(n, h, [i], s), h, GapAfter(n, h, [i]))
    ensures var (x, news2) := Refresh(SetSeg(n, h, [i], s), h, p, q, GapAfter(n, h, [i]));
            x == Node(n.segs[i := s], n.kids[i + 1 := y], KidsGap(n.kids[i + 1 := y])) && NewsFits(n.gap, x.gap, news2)
  {
    var c2 := GapAfter(n, h, [i]);
    assert c2[0] == i + 1 && c2[1..] == First(h - 1);
    NewsStep(n.kids, i + 1, y, n.gap, news);
  }

  lemma LiftedAlong(n: Node, h: nat, p: int, q: int, i: nat, s: Segment, y: Node, x: Node)
    requires Liftable(n, h, p, q, [i]) && Full(y, h - 1, s.end, High(n.segs, i + 1, q))
    requires x == Node(n.segs[i := s], n.kids[i + 1 := y], KidsGap(n.kids[i + 1 := y]))
    ensures var c := GapBefore(n, h, [i]);
            && |c| == h + 1 && At(x, h, StepBack(c)) && Along(x, h, p, q, StepBack(c))
            && LeafSize(x, h, StepBack(c)) == StepBack(c)[h] + 1 >= MIN_DEGREE - 1
            && Flatten(n.kids[i], h - 1) != []
            && Before(x, h, StepBack(c)) == Prefix(n.segs[..i], n.kids[..i], h - 1)
              + Flatten(n.kids[i], h - 1)[..|Flatten(n.kids[i], h - 1)| - 1]
  {
    hide Prefix, Suffix, Weave, MaxGap, SoundKids, SoundPrefix, SoundSuffix, KidsGap, Sound, Full;
    var g, l, d := h - 1, n.kids[i], StepBack(Last(n.kids[i], h - 1));
    var c := GapBefore(n, h, [i]);
    assert c[0] == i && c[1..] == Last(l, g);
    LastAlong(l, g, Low(n.segs, i, p), High(n.segs, i, q), s.start);
    SteppedBack(c, i, Last(l, g));
    LiftedSuffix(n, g, q, i, s, y);
    assert x.segs[..i] == n.segs[..i] && x.kids[..i] == n.kids[..i] && x.kids[i] == l;
  }

  lemma SteppedBack(c: Coord, i: nat, d: Coord)
    requires d != [] && c == [i] + d
    ensures StepBack(c) == [i] + StepBack(d) && StepBack(c)[1..] == StepBack(d)
    ensures |StepBack(c)| == |d| + 1 == |StepBack(d)| + 1 && StepBack(c)[|d|] == StepBack(d)[|d| - 1]
  {
  }

  lemma LiftedSuffix(n: Node, g: nat, q: int, i: nat, s: Segment, y: Node)
    requires i < |n.segs| && |n.kids| == |n.segs| + 1 && SoundSuffix(n.segs[i..], n.kids[i + 1..], g, q)
    requires Full(y, g, s.end, High(n.segs, i + 1, q))
    ensures SoundSuffix(n.segs[i := s][i..], n.kids[i + 1 := y][i + 1..], g, q)
  {
    hide SoundSuffix, Full;
    PairAt(n, i, 0, q);
    SoundSuffixOneMore(n.segs[i], n.kids[i + 1], n.segs[i + 1..], n.kids[i + 2..], g, q);
    SoundSuffixOneMore(s, y, n.segs[i + 1..], n.kids[i + 2..], g, q);
    assert n.segs[i := s][i..] == [s] + n.segs[i + 1..] && n.kids[i + 1 := y][i + 1..] == [y] + n.kids[i + 2..];
  }

  lemma LiftedList(n: Node, h: nat, i: nat, s: Segment, y: Node, x: Node)
    requires h > 0 && i < |n.segs| && SegIn(n, h, [i]) && Flatten(n.kids[i], h - 1) != []
    requires Flatten(y, h - 1) == Flatten(n.kids[i + 1], h - 1) && x.segs == n.segs[i := s]
    requires x.kids == n.kids[i + 1 := y]
    ensures var k, l := |BeforeSeg(n, h, [i])|, Flatten(n, h);
            && 0 < k < |l| && Flatten(x, h) == l[k := s]
            && l[..k - 1] == Prefix(n.segs[..i], n.kids[..i], h - 1)
              + Flatten(n.kids[i], h - 1)[..|Flatten(n.kids[i], h - 1)| - 1]
  {
    hide Prefix, Suffix, Weave;
    var sa, ka, sb, kb := n.segs[..i], n.kids[..i], n.segs[i + 1..], n.kids[i + 2..];
    PairAt(n, i, 0, 0);
    PairFlatten(sa, ka, n.kids[i], n.segs[i], n.kids[i + 1], sb, kb, n.gap, h);
    PairFlatten(sa, ka, n.kids[i], s, y, sb, kb, x.gap, h);
    assert x == WithPair(sa, ka, n.kids[i], s, y, sb, kb, x.gap);
    ReplacedInList(Prefix(sa, ka, h - 1), Flatten(n.kids[i], h - 1), n.segs[i], s, Flatten(y, h - 1),
                   Suffix(sb, kb, h - 1));
  }

  lemma ReplacedInList(a: seq<Segment>, b: seq<Segment>, k: Segment, s: Segment, c: seq<Segment>, d: seq<Segment>)
    ensures var l := a + (b + [k] + c) + d;
            && |a + b| < |l| && a + (b + [s] + c) + d == l[|a + b| := s]
            && (b != [] ==> l[..|a + b| - 1] == a + b[..|b| - 1])
  {
  }

  lemma LiftedBelow(n: Node, h: nat, p: int, q: int, sc: Coord, s: Segment, x: Node, news: News)
    requires Liftable(n, h, p, q, sc) && |sc| > 1
    requires var i, d := sc[0], sc[1..];
             && At(SetSeg(n.kids[i], h - 1, d, s), h - 1, GapAfter(n.kids[i], h - 1, d))
             && (x, news) == Refresh(SetSeg(n.kids[i], h - 1, d, s), h - 1, Low(n.segs, i, p), High(n.segs, i, q),
                                     GapAfter(n.kids[i], h - 1, d))
             && LiftedTo(n.kids[i], h - 1, Low(n.segs, i, p), High(n.segs, i, q), d, s, x, news)
    ensures At(SetSeg(n, h, sc, s), h, GapAfter(n, h, sc))
    ensures var (y, news2) := Refresh(SetSeg(n, h, sc, s), h, p, q, GapAfter(n, h, sc));
            LiftedTo(n, h, p, q, sc, s, y, news2)
  {
    hide Prefix, Suffix, Weave, MaxGap, SoundPrefix, SoundSuffix, KidsGap;
    var i, d, g := sc[0], sc[1..], h - 1;
    var n1, c2 := SetSeg(n, h, sc, s), GapAfter(n, h, sc);
    assert c2[0] == i && c2[1..] == GapAfter(n.kids[i], g, d);
    assert n1.kids[i] == SetSeg(n.kids[i], g, d, s);
    assert At(n1, h, c2);
    var (y, news2) := Refresh(n1, h, p, q, c2);
    NewsStep(n.kids, i, x, n.gap, news);
    assert n1.kids[i := x] == n.kids[i := x];
    assert y == Node(n.segs, n.kids[i := x], KidsGap(n.kids[i := x])) && NewsFits(n.gap, y.gap, news2);
    LiftedUp(n, h, p, q, sc, s, x, news, y);
  }

  /** One level up, a path continues. */
  lemma AlongUp(n: Node, h: nat, p: int, q: int, i: nat, x: Node, c: Coord, e: Coord)
    requires h > 0 && At(n, h, c) && Along(n, h, p, q, c) && i == c[0] && |x.segs| == |n.kids[i].segs|
    requires At(x, h - 1, e) && Along(x, h - 1, Low(n.segs, i, p), High(n.segs, i, q), e)
    ensures var y := Node(n.segs, n.kids[i := x], KidsGap(n.kids[i := x]));
            At(y, h, [i] + e) && Along(y, h, p, q, [i] + e) && LeafSize(y, h, [i] + e) == LeafSize(x, h - 1, e)
  {
    hide SoundPrefix, SoundSuffix, KidsGap;
    var y := Node(n.segs, n.kids[i := x], KidsGap(n.kids[i := x]));
    assert ([i] + e)[1..] == e;
    assert y.kids[..i] == n.kids[..i] && y.kids[i + 1..] == n.kids[i + 1..] && y.kids[i] == x;
  }

  lemma LiftedUp(n: Node, h: nat, p: int, q: int, sc: Coord, s: Segment, x: Node, news: News, y: Node)
    requires Liftable(n, h, p, q, sc) && |sc| > 1 && y == Node(n.segs, n.kids[sc[0] := x], KidsGap(n.kids[sc[0] := x]))
    requires LiftedTo(n.kids[sc[0]], h - 1, Low(n.segs, sc[0], p), High(n.segs, sc[0], q), sc[1..], s, x, news)
    ensures var c, k, l := GapBefore(n, h, sc), |BeforeSeg(n, h, sc)|, Flatten(n, h);
            && |c| == h + 1 && At(y, h, StepBack(c)) && Along(y, h, p, q, StepBack(c))
            && LeafSize(y, h, StepBack(c)) == StepBack(c)[h] + 1 >= MIN_DEGREE - 1
            && 0 < k < |l| && Flatten(y, h) == l[k := s] && Before(y, h, StepBack(c)) == l[..k - 1]
  {
    hide KidsGap, Flatten, Along, Before, LeafSize;
    var i, d, g := sc[0], sc[1..], h - 1;
    var c, e := GapBefore(n, h, sc), GapBefore(n.kids[i], g, d);
    assert c[0] == i && c[1..] == e;
    assert StepBack(c) == [i] + StepBack(e);
    assert StepBack(c)[h] == StepBack(e)[g];
    AlongUp(n, h, p, q, i, x, c, StepBack(e));
    LiftedUpList(n, h, sc, s, x, y, StepBack(e));
  }

  lemma LiftedUpList(n: Node, h: nat, sc: Coord, s: Segment, x: Node, y: Node, e: Coord)
    requires h > 0 && SegIn(n, h, sc) && |sc| > 1 && y.segs == n.segs && y.kids == n.kids[sc[0] := x] && At(x, h - 1, e)
    requires var k, m := |BeforeSeg(n.kids[sc[0]], h - 1, sc[1..])|, Flatten(n.kids[sc[0]], h - 1);
             0 < k < |m| && Flatten(x, h - 1) == m[k := s] && Before(x, h - 1, e) == m[..k - 1]
    ensures At(y, h, [sc[0]] + e)
    ensures var k, l := |BeforeSeg(n, h, sc)|, Flatten(n, h);
            0 < k < |l| && Flatten(y, h) == l[k := s] && Before(y, h, [sc[0]] + e) == l[..k - 1]
  {
    hide Prefix, Suffix, Weave;
    var i, g := sc[0], h - 1;
    var sa, ka, sb, kb := n.segs[..i], n.kids[..i], n.segs[i..], n.kids[i + 1..];
    assert y.kids[..i] == ka && ([i] + e)[1..] == e;
    KidFlatten(n, h, i, x);
    UpdatedInMiddle(Prefix(sa, ka, g), Flatten(n.kids[i], g), Suffix(sb, kb, g), |BeforeSeg(n.kids[i], g, sc[1..])|, s);
  }

  lemma UpdatedInMiddle(a: seq<Segment>, m: seq<Segment>, b: seq<Segment>, k: nat, s: Segment)
    requires 0 < k < |m|
    ensures a + m[k := s] + b == (a + m + b)[|a| + k := s] && a + m[..k - 1] == (a + m + b)[..|a| + k - 1]
  {
  }

  lemma {:induction false} LiftIsSound(n: Node, h: nat, p: int, q: int, sc: Coord, s: Segment)
    requires Liftable(n, h, p, q, sc)
    ensures At(SetSeg(n, h, sc, s), h, GapAfter(n, h, sc))
    ensures var (x, news) := Refresh(SetSeg(n, h, sc, s), h, p, q, GapAfter(n, h, sc));
            LiftedTo(n, h, p, q, sc, s, x, news)
    decreases h
  {
    hide LiftedTo, Flatten, SoundPrefix, SoundSuffix, KidsGap, Refresh;
    var i := sc[0];
    if |sc| == 1 {
      assert sc == [i];
      LiftedHere(n, h, p, q, i, s);
    } else {
      assert GapBefore(n, h, sc)[1..] == GapBefore(n.kids[i], h - 1, sc[1..]);
      LiftIsSound(n.kids[i], h - 1, Low(n.segs, i, p), High(n.segs, i, q), sc[1..], s);
      var (x, news) := Refresh(SetSeg(n.kids[i], h - 1, sc[1..], s), h - 1, Low(n.segs, i, p), High(n.segs, i, q),
                               GapAfter(n.kids[i], h - 1, sc[1..]));
      LiftedBelow(n, h, p, q, sc, s, x, news);
    }
  }

  // ----- Remove -----

  /** The segment after a gap, if there is one. */
  function NextSeg(n: Node, h: nat, c: Coord): (r: Coord)
    requires At(n, h, c)
    ensures r != [] ==> SegIn(n, h, r)
    decreases h
  {
    if h == 0 then (if c[0] < |n.segs| then c else [])
    else
      var d := NextSeg(n.kids[c[0]], h - 1, c[1..]);
      if d != [] then assert ([c[0]] + d)[1..] == d; [c[0]] + d else if c[0] < |n.segs| then [c[0]] else []
  }

  /** The segment before a gap, if there is one. */
  function PrevSeg(n: Node, h: nat, c: Coord): (r: Coord)
    requires At(n, h, c)
    ensures r != [] ==> SegIn(n, h, r)
    decreases h
  {
    if h == 0 then (if c[0] > 0 then [c[0] - 1] else [])
    else
      var d := PrevSeg(n.kids[c[0]], h - 1, c[1..]);
      if d != [] then assert ([c[0]] + d)[1..] == d; [c[0]] + d else if c[0] > 0 then [c[0] - 1] else []
  }

  lemma {:induction false} NextSegAt(n: Node, h: nat, c: Coord)
    requires Shaped(n, h) && At(n, h, c)
    ensures var r, k := NextSeg(n, h, c), |Before(n, h, c)|;
            if r == [] then Before(n, h, c) == Flatten(n, h)
            else k < |Flatten(n, h)| && BeforeSeg(n, h, r) == Before(n, h, c) && SegOf(n, h, r) == Flatten(n, h)[k]
    decreases h
  {
    hide Prefix, Suffix, Weave;
    if h > 0 {
      var i, x, g := c[0], n.kids[c[0]], h - 1;
      NextSegAt(x, g, c[1..]);
      KidFlatten(n, h, i, x);
      var d, r := NextSeg(x, g, c[1..]), NextSeg(n, h, c);
      if d != [] { assert r[0] == i && r[1..] == d; }
      SuffixStart(n.segs[i..], n.kids[i + 1..], g);
    }
  }

  lemma {:induction false} PrevSegAt(n: Node, h: nat, c: Coord)
    requires Shaped(n, h) && At(n, h, c)
    ensures var r, b := PrevSeg(n, h, c), Before(n, h, c);
            if r == [] then b == [] else b != [] && BeforeSeg(n, h, r) == b[..|b| - 1] && SegOf(n, h, r) == b[|b| - 1]
    decreases h
  {
    hide Prefix, Suffix, Weave;
    if h > 0 {
      var i, x, g := c[0], n.kids[c[0]], h - 1;
      PrevSegAt(x, g, c[1..]);
      var d, r := PrevSeg(x, g, c[1..]), PrevSeg(n, h, c);
      if d != [] {
        assert r[0] == i && r[1..] == d;
      } else if i > 0 {
        PrefixStep(n.segs, n.kids, i - 1, g);
      } else {
        PrefixEnd(n.segs[..0], n.kids[..0], g);
      }
    }
  }
}
