/** Keeping the cached gaps exact when one leaf changes. */
module SegmentGaps {
  import opened SegmentList
  import opened SegmentNode
  import opened SegmentInsert

  // ----- exact gaps -----

  ghost predicate Exact(n: Node, h: nat, p: int, q: int) { n.gap == MaxGap(p, Flatten(n, h), q) }

  ghost predicate ExactKid(segs: seq<Segment>, kids: seq<Node>, h: nat, p: int, q: int, i: nat)
    requires i < |kids| == |segs| + 1
  {
    Exact(kids[i], h, Low(segs, i, p), High(segs, i, q))
  }

  ghost predicate ExactKids(segs: seq<Segment>, kids: seq<Node>, h: nat, p: int, q: int) {
    |kids| == |segs| + 1 && forall i :: 0 <= i < |kids| ==> ExactKid(segs, kids, h, p, q, i)
  }

  /** The largest of exact gaps of the kids is the gap of the node. */
  lemma {:induction false} LargestIsExact(segs: seq<Segment>, kids: seq<Node>, h: nat, p: int, q: int)
    requires ExactKids(segs, kids, h, p, q)
    ensures KidsGap(kids) == MaxGap(p, Weave(segs, kids, h), q)
    decreases |segs|
  {
    assert ExactKid(segs, kids, h, p, q, 0);
    if segs != [] {
      var k, s, ks := segs[0], segs[1..], kids[1..];
      forall i | 0 <= i < |ks| ensures ExactKid(s, ks, h, k.end, q, i) { assert ExactKid(segs, kids, h, p, q, i + 1); }
      LargestIsExact(s, ks, h, k.end, q);
      MaxGapJoin(p, Flatten(kids[0], h), k, Weave(s, ks, h), q);
    }
  }

  /** How the largest gap changes when one kid does. */
  lemma {:induction false} KidsGapUpdate(kids: seq<Node>, i: nat, y: Node)
    requires i < |kids|
    ensures var g, g2 := KidsGap(kids), KidsGap(kids[i := y]);
            && kids[i].gap <= g && y.gap <= g2
            && (kids[i].gap < g ==> g2 == Max(g, y.gap))
            && (y.gap >= g ==> g2 == y.gap)
            && (y.gap <= kids[i].gap ==> g2 <= g)
            && (y.gap == kids[i].gap ==> g2 == g)
  {
    var ks := kids[i := y];
    if i == 0 {
      assert ks[1..] == kids[1..];
    } else {
      assert ks[1..] == kids[1..][i - 1 := y];
      KidsGapUpdate(kids[1..], i - 1, y);
    }
  }

  // ----- all sound but one leaf -----

  /** Everything below n is sound except, perhaps, the size and the gap of the leaf
      at c; the gaps above it are the largest of the cached ones. */
  ghost predicate Along(n: Node, h: nat, p: int, q: int, c: Coord)
    decreases h
  {
    && At(n, h, c) && |n.segs| < MAX_DEGREE
    && (if h == 0 then n.kids == []
        else
          var i := c[0];
          && SoundPrefix(n.segs[..i], n.kids[..i], h - 1, p) && SoundSuffix(n.segs[i..], n.kids[i + 1..], h - 1, q)
          && Along(n.kids[i], h - 1, Low(n.segs, i, p), High(n.segs, i, q), c[1..])
          && (h > 1 ==> |n.kids[i].segs| >= MIN_DEGREE - 1)
          && n.gap == KidsGap(n.kids))
  }

  /** The leaf at c, and its bounds. */
  ghost predicate LeafExact(n: Node, h: nat, p: int, q: int, c: Coord)
    requires At(n, h, c)
    decreases h
  {
    if h == 0 then n.gap == MaxGap(p, n.segs, q)
    else LeafExact(n.kids[c[0]], h - 1, Low(n.segs, c[0], p), High(n.segs, c[0], q), c[1..])
  }

  /** If the leaf is exact, so is everything above it. */
  lemma {:induction false} ExactAlong(n: Node, h: nat, p: int, q: int, c: Coord)
    requires Along(n, h, p, q, c) && LeafExact(n, h, p, q, c)
    ensures Exact(n, h, p, q)
    decreases h
  {
    if h > 0 {
      var i, g := c[0], h - 1;
      ExactAlong(n.kids[i], g, Low(n.segs, i, p), High(n.segs, i, q), c[1..]);
      forall j | 0 <= j < |n.kids| ensures ExactKid(n.segs, n.kids, g, p, q, j) {
        if j < i {
          assert InPrefix(n.segs[..i], n.kids[..i], g, p, j);
          FullGap(n.kids[j], g, Low(n.segs, j, p), High(n.segs, j, q));
        } else if j > i {
          assert InSuffix(n.segs[i..], n.kids[i + 1..], g, q, j - i - 1);
          FullGap(n.kids[j], g, Low(n.segs, j, p), High(n.segs, j, q));
        }
      }
      LargestIsExact(n.segs, n.kids, g, p, q);
    }
  }

  /** If it also has enough segments, the node is sound. */
  lemma {:induction false} SoundAlong(n: Node, h: nat, p: int, q: int, c: Coord)
    requires Along(n, h, p, q, c) && LeafExact(n, h, p, q, c) && (h > 0 ==> LeafSize(n, h, c) >= MIN_DEGREE - 1)
    ensures Sound(n, h, p, q)
    decreases h
  {
    ExactAlong(n, h, p, q, c);
    if h > 0 {
      var i := c[0];
      var x := n.kids[i];
      SoundAlong(x, h - 1, Low(n.segs, i, p), High(n.segs, i, q), c[1..]);
      assert n.segs == n.segs[..i] + n.segs[i..] && n.kids == n.kids[..i] + [x] + n.kids[i + 1..];
      SoundAround(n.segs[..i], n.kids[..i], x, n.segs[i..], n.kids[i + 1..], h - 1, p, q);
    }
  }

  /** A sound node is sound along every path. */
  lemma {:induction false} AlongSound(n: Node, h: nat, p: int, q: int, c: Coord)
    requires Sound(n, h, p, q) && At(n, h, c)
    ensures Along(n, h, p, q, c) && LeafExact(n, h, p, q, c)
    decreases h
  {
    if h > 0 {
      var i := c[0];
      var x := n.kids[i];
      KidIsSound(n, h, p, q, i);
      AlongSound(x, h - 1, Low(n.segs, i, p), High(n.segs, i, q), c[1..]);
      assert n.segs == n.segs[..i] + n.segs[i..] && n.kids == n.kids[..i] + [x] + n.kids[i + 1..];
      SoundAround(n.segs[..i], n.kids[..i], x, n.segs[i..], n.kids[i + 1..], h - 1, p, q);
      KidsGapIsMaxGap(n.segs, n.kids, h - 1, p, q);
    }
  }

  lemma {:induction false} AlongIsShaped(n: Node, h: nat, p: int, q: int, c: Coord)
    requires Along(n, h, p, q, c)
    ensures Shaped(n, h)
    decreases h
  {
    if h > 0 {
      var i, g := c[0], h - 1;
      AlongIsShaped(n.kids[i], g, Low(n.segs, i, p), High(n.segs, i, q), c[1..]);
      forall j | 0 <= j < |n.kids| ensures Shaped(n.kids[j], g) {
        if j < i {
          assert InPrefix(n.segs[..i], n.kids[..i], g, p, j);
          SoundIsShaped(n.kids[j], g, Low(n.segs, j, p), n.segs[j].start);
        } else if j > i {
          assert InSuffix(n.segs[i..], n.kids[i + 1..], g, q, j - i - 1);
          SoundIsShaped(n.kids[j], g, n.segs[j - 1].end, High(n.segs, j, q));
        }
      }
    }
  }

  /** Another gap of the same leaf. */
  lemma {:induction false} AlongSameLeaf(n: Node, h: nat, p: int, q: int, c: Coord, j: nat)
    requires At(n, h, c) && Along(n, h, p, q, c) && j <= LeafSize(n, h, c)
    ensures var d := c[..h] + [j]; At(n, h, d) && Along(n, h, p, q, d) && LeafSize(n, h, d) == LeafSize(n, h, c)
    decreases h
  {
    if h > 0 {
      var d := c[..h] + [j];
      assert d[1..] == c[1..][..h - 1] + [j];
      AlongSameLeaf(n.kids[c[0]], h - 1, Low(n.segs, c[0], p), High(n.segs, c[0], q), c[1..], j);
    }
  }

  // ----- updateMaxGapLeaf -----

  /** What the level below tells the one above: nothing changed, or the gap grew to
      max, or shrank from was. */
  datatype News = Settled | Grew(max: int) | Shrank(was: int)

  /** Compute the gap of the leaf at c anew, and pass a change on to its ancestors
      for as long as it matters. */
  function Refresh(n: Node, h: nat, p: int, q: int, c: Coord): (Node, News)
    requires At(n, h, c)
    decreases h
  {
    if h == 0 then
      var max := MaxGap(p, n.segs, q);
      (n.(gap := max), if max == n.gap then Settled else if max > n.gap then Grew(max) else Shrank(n.gap))
    else
      var i := c[0];
      var (x, news) := Refresh(n.kids[i], h - 1, Low(n.segs, i, p), High(n.segs, i, q), c[1..]);
      var n2 := n.(kids := n.kids[i := x]);
      match news
      case Settled => (n2, Settled)
      case Grew(max) => if n.gap >= max then (n2, Settled) else (n2.(gap := max), Grew(max))
      case Shrank(was) =>
        if n.gap > was then (n2, Settled)
        else
          var max := KidsGap(n2.kids);
          if n.gap == max then (n2, Settled) else (n2.(gap := max), Shrank(was))
  }

  ghost predicate NewsFits(before: int, after: int, news: News) {
    match news
    case Settled => after == before
    case Grew(max) => after == max > before
    case Shrank(was) => after < before == was
  }

  /** Stopping early loses nothing: all gaps on the way are exact again. */
  lemma {:induction false} RefreshIsExact(n: Node, h: nat, p: int, q: int, c: Coord)
    requires Along(n, h, p, q, c)
    ensures var (x, news) := Refresh(n, h, p, q, c);
            && At(x, h, c) && Along(x, h, p, q, c) && LeafExact(x, h, p, q, c) && NewsFits(n.gap, x.gap, news)
            && x.segs == n.segs && Flatten(x, h) == Flatten(n, h)
            && Before(x, h, c) == Before(n, h, c) && LeafSize(x, h, c) == LeafSize(n, h, c)
    decreases h
  {
    hide SoundPrefix, SoundSuffix, Prefix, Suffix, Weave, KidsGap;
    if h > 0 {
      var i := c[0];
      var lo, hi := Low(n.segs, i, p), High(n.segs, i, q);
      RefreshIsExact(n.kids[i], h - 1, lo, hi, c[1..]);
      var (x, news) := Refresh(n.kids[i], h - 1, lo, hi, c[1..]);
      var n2 := n.(kids := n.kids[i := x]);
      KidsGapUpdate(n.kids, i, x);
      assert n2.kids[..i] == n.kids[..i] && n2.kids[i + 1..] == n.kids[i + 1..];
      KidFlatten(n, h, i, x);
      assert Flatten(n2, h) == Flatten(n, h);
    }
  }

  /** Exchange one kid. */
  lemma KidFlatten(n: Node, h: nat, i: nat, x: Node)
    requires h > 0 && i < |n.kids| == |n.segs| + 1
    ensures Flatten(n, h) == Prefix(n.segs[..i], n.kids[..i], h - 1) + Flatten(n.kids[i], h - 1)
              + Suffix(n.segs[i..], n.kids[i + 1..], h - 1)
    ensures Flatten(n.(kids := n.kids[i := x]), h)
            == Prefix(n.segs[..i], n.kids[..i], h - 1) + Flatten(x, h - 1) + Suffix(n.segs[i..], n.kids[i + 1..], h - 1)
  {
    var sa, ka, sb, kb := n.segs[..i], n.kids[..i], n.segs[i..], n.kids[i + 1..];
    assert n.segs == sa + sb && n.kids == ka + [n.kids[i]] + kb && n.kids[i := x] == ka + [x] + kb;
    WeaveAround(sa, ka, n.kids[i], sb, kb, h - 1);
    WeaveAround(sa, ka, x, sb, kb, h - 1);
  }

  // ----- changing a leaf -----

  function LeafAt(n: Node, h: nat, c: Coord): (leaf: Node)
    requires At(n, h, c)
    ensures c[h] <= |leaf.segs|
    decreases h
  {
    if h == 0 then n else assert c[1..][h - 1] == c[h]; LeafAt(n.kids[c[0]], h - 1, c[1..])
  }

  /** The bounds of the leaf at c. */
  function LeafLow(n: Node, h: nat, p: int, c: Coord): int
    requires At(n, h, c)
    decreases h
  {
    if h == 0 then p else LeafLow(n.kids[c[0]], h - 1, Low(n.segs, c[0], p), c[1..])
  }

  function LeafHigh(n: Node, h: nat, q: int, c: Coord): int
    requires At(n, h, c)
    decreases h
  {
    if h == 0 then q else LeafHigh(n.kids[c[0]], h - 1, High(n.segs, c[0], q), c[1..])
  }

  /** The leaf at c gets other segments. */
  function SetLeaf(n: Node, h: nat, c: Coord, segs: seq<Segment>): Node
    requires At(n, h, c)
    decreases h
  {
    if h == 0 then n.(segs := segs) else n.(kids := n.kids[c[0] := SetLeaf(n.kids[c[0]], h - 1, c[1..], segs)])
  }

  /** The segments of the tree before and after the leaf at c. */
  ghost function BeforeLeaf(n: Node, h: nat, c: Coord): seq<Segment>
    requires At(n, h, c)
    decreases h
  {
    if h == 0 then [] else Prefix(n.segs[..c[0]], n.kids[..c[0]], h - 1) + BeforeLeaf(n.kids[c[0]], h - 1, c[1..])
  }

  ghost function AfterLeaf(n: Node, h: nat, c: Coord): seq<Segment>
    requires At(n, h, c)
    decreases h
  {
    if h == 0 then [] else AfterLeaf(n.kids[c[0]], h - 1, c[1..]) + Suffix(n.segs[c[0]..], n.kids[c[0] + 1..], h - 1)
  }

  lemma {:induction false} FlattenAtLeaf(n: Node, h: nat, c: Coord)
    requires At(n, h, c)
    ensures Flatten(n, h) == BeforeLeaf(n, h, c) + LeafAt(n, h, c).segs + AfterLeaf(n, h, c)
    ensures c[h] <= |LeafAt(n, h, c).segs| == LeafSize(n, h, c)
    ensures Before(n, h, c) == BeforeLeaf(n, h, c) + LeafAt(n, h, c).segs[..c[h]]
    decreases h
  {
    hide Prefix, Suffix, Weave;
    if h > 0 {
      var i := c[0];
      assert c[1..][h - 1] == c[h];
      FlattenAtLeaf(n.kids[i], h - 1, c[1..]);
      KidFlatten(n, h, i, n.kids[i]);
    }
  }

  /** What changing a leaf does to the tree. */
  lemma {:induction false} SetLeafAlong(n: Node, h: nat, p: int, q: int, c: Coord, segs: seq<Segment>, j: nat)
    requires Along(n, h, p, q, c) && j <= |segs| < MAX_DEGREE
    ensures var x, d := SetLeaf(n, h, c, segs), c[..h] + [j];
            && At(x, h, d) && Along(x, h, p, q, d) && LeafAt(x, h, d) == LeafAt(n, h, c).(segs := segs)
            && BeforeLeaf(x, h, d) == BeforeLeaf(n, h, c) && AfterLeaf(x, h, d) == AfterLeaf(n, h, c)
            && LeafLow(x, h, p, d) == LeafLow(n, h, p, c) && LeafHigh(x, h, q, d) == LeafHigh(n, h, q, c)
            && x.gap == n.gap && (h > 0 ==> x.segs == n.segs)
    decreases h
  {
    hide Prefix, Suffix, SoundPrefix, SoundSuffix, KidsGap;
    if h > 0 {
      var i, d := c[0], c[..h] + [j];
      var x := SetLeaf(n.kids[i], h - 1, c[1..], segs);
      assert c[1..][..h - 1] + [j] == d[1..];
      SetLeafAlong(n.kids[i], h - 1, Low(n.segs, i, p), High(n.segs, i, q), c[1..], segs, j);
      assert n.kids[i := x][..i] == n.kids[..i] && n.kids[i := x][i + 1..] == n.kids[i + 1..];
      KidsGapUpdate(n.kids, i, x);
    }
  }

  lemma {:induction false} LeafExactAt(n: Node, h: nat, p: int, q: int, c: Coord)
    requires At(n, h, c)
    ensures LeafExact(n, h, p, q, c) <==>
              LeafAt(n, h, c).gap == MaxGap(LeafLow(n, h, p, c), LeafAt(n, h, c).segs, LeafHigh(n, h, q, c))
    decreases h
  {
    if h > 0 { LeafExactAt(n.kids[c[0]], h - 1, Low(n.segs, c[0], p), High(n.segs, c[0], q), c[1..]); }
  }

  // ----- inserting -----

  lemma {:induction false} SetLeafAt(n: Node, h: nat, c: Coord, segs: seq<Segment>, j: nat)
    requires At(n, h, c) && j <= |segs|
    ensures At(SetLeaf(n, h, c, segs), h, c[..h] + [j])
    decreases h
  {
    if h > 0 {
      assert (c[..h] + [j])[1..] == c[1..][..h - 1] + [j];
      SetLeafAt(n.kids[c[0]], h - 1, c[1..], segs, j);
    }
  }

  /** Put s into the gap at c, in a leaf that is not full. The gaps are computed
      anew only if the gap was a longest one of the leaf. */
  function InsertInLeaf(n: Node, h: nat, p: int, q: int, c: Coord, s: Segment): Node
    requires At(n, h, c)
  {
    var leaf, j := LeafAt(n, h, c), c[h];
    var segs := leaf.segs[..j] + [s] + leaf.segs[j..];
    var x := SetLeaf(n, h, c, segs);
    assert c[..h] + [j] == c;
    SetLeafAt(n, h, c, segs, j);
    if leaf.segs == [] || GapLength(leaf.segs, j, LeafLow(n, h, p, c), LeafHigh(n, h, q, c)) == leaf.gap
    then Refresh(x, h, p, q, c).0
    else x
  }

  /** The segment is where the gap was, and all gaps are exact. */
  lemma InsertInLeafIsExact(n: Node, h: nat, p: int, q: int, c: Coord, s: Segment)
    requires At(n, h, c) && Along(n, h, p, q, c) && LeafSize(n, h, c) < MAX_DEGREE - 1
    requires (LeafExact(n, h, p, q, c) || LeafAt(n, h, c).segs == [])
    requires GapStart(LeafAt(n, h, c).segs, c[h], LeafLow(n, h, p, c)) <= s.start <= s.end
    requires s.end <= GapEnd(LeafAt(n, h, c).segs, c[h], LeafHigh(n, h, q, c))
    ensures var x := InsertInLeaf(n, h, p, q, c, s);
            && At(x, h, c) && Along(x, h, p, q, c) && LeafExact(x, h, p, q, c)
            && LeafSize(x, h, c) == LeafSize(n, h, c) + 1
            && Before(n, h, c) <= Flatten(n, h) && Before(x, h, c) == Before(n, h, c)
            && Flatten(x, h) == Before(n, h, c) + [s] + Flatten(n, h)[|Before(n, h, c)|..]
            && (h > 0 ==> x.segs == n.segs)
  {
    hide Along;
    FlattenAtLeaf(n, h, c);
    var leaf, j := LeafAt(n, h, c), c[h];
    var segs := leaf.segs[..j] + [s] + leaf.segs[j..];
    var x := SetLeaf(n, h, c, segs);
    assert c[..h] + [j] == c;
    SetLeafAlong(n, h, p, q, c, segs, j);
    FlattenAtLeaf(x, h, c);
    LeafExactAt(n, h, p, q, c);
    LeafExactAt(x, h, p, q, c);
    var lo, hi := LeafLow(n, h, p, c), LeafHigh(n, h, q, c);
    assert segs[..j] == leaf.segs[..j];
    InsertedList(BeforeLeaf(n, h, c), leaf.segs, AfterLeaf(n, h, c), j, s);
    if leaf.segs == [] || GapLength(leaf.segs, j, lo, hi) == leaf.gap {
      RefreshIsExact(x, h, p, q, c);
    } else {
      MaxGapDivided(lo, leaf.segs, hi, j, s);
    }
  }

  lemma InsertedList(a: seq<Segment>, l: seq<Segment>, b: seq<Segment>, j: nat, s: Segment)
    requires j <= |l|
    ensures a + l[..j] <= a + l + b
    ensures a + (l[..j] + [s] + l[j..]) + b == a + l[..j] + [s] + (a + l + b)[|a + l[..j]|..]
  {
  }
}
