/** Making room for one more segment: full nodes on the way to a gap are split. */
module SegmentInsert {
  import opened SegmentList
  import opened SegmentNode

  /** A gap is named by its coordinates: the kid to go to on every level, and the
      number of segments before the gap in the leaf. */
  type Coord = seq<nat>

  ghost predicate At(n: Node, h: nat, c: Coord)
    decreases h
  {
    && |c| == h + 1 && c[0] <= |n.segs|
    && (h > 0 ==> |n.kids| == |n.segs| + 1 && At(n.kids[c[0]], h - 1, c[1..]))
  }

  /** The segments before a gap: its place in the set. */
  ghost function Before(n: Node, h: nat, c: Coord): seq<Segment>
    requires At(n, h, c)
    decreases h
  {
    if h == 0 then n.segs[..c[0]]
    else Prefix(n.segs[..c[0]], n.kids[..c[0]], h - 1) + Before(n.kids[c[0]], h - 1, c[1..])
  }

  /** How many segments the leaf has that a gap is in. */
  ghost function LeafSize(n: Node, h: nat, c: Coord): nat
    requires At(n, h, c)
    decreases h
  {
    if h == 0 then |n.segs| else LeafSize(n.kids[c[0]], h - 1, c[1..])
  }

  function Shift(c: Coord, d: int): Coord
    requires c != [] && c[0] + d >= 0
  {
    [c[0] + d] + c[1..]
  }

  /** A gap of two nodes and the segment between them, seen in one node. */
  lemma BeforeJoin(a: Node, k: Segment, b: Node, n: Node, h: nat, c: Coord)
    requires h > 0 ==> |a.kids| == |a.segs| + 1 && |b.kids| == |b.segs| + 1
    requires n.segs == a.segs + [k] + b.segs && n.kids == a.kids + b.kids && |c| == h + 1
    ensures c[0] <= |a.segs| ==> (At(n, h, c) <==> At(a, h, c))
    ensures c[0] <= |a.segs| && At(a, h, c) ==>
              && Before(n, h, c) == Before(a, h, c) && LeafSize(n, h, c) >= LeafSize(a, h, c)
              && (h > 0 ==> LeafSize(n, h, c) == LeafSize(a, h, c))
    ensures c[0] > |a.segs| ==> (At(n, h, c) <==> At(b, h, Shift(c, -|a.segs| - 1)))
    ensures c[0] > |a.segs| && At(n, h, c) ==>
              var d := Shift(c, -|a.segs| - 1);
              && Before(n, h, c) == Flatten(a, h) + [k] + Before(b, h, d) && LeafSize(n, h, c) >= LeafSize(b, h, d)
              && (h > 0 ==> LeafSize(n, h, c) == LeafSize(b, h, d))
  {
    var i := c[0];
    if i <= |a.segs| {
      assert n.segs[..i] == a.segs[..i];
      if h > 0 { assert n.kids[..i] == a.kids[..i] && n.kids[i] == a.kids[i]; }
    } else {
      var j := i - |a.segs| - 1;
      assert Shift(c, -|a.segs| - 1)[1..] == c[1..];
      if j <= |b.segs| {
        assert n.segs[..i] == a.segs + [k] + b.segs[..j];
        if h > 0 {
          assert n.kids[..i] == a.kids + b.kids[..j] && n.kids[i] == b.kids[j];
          PrefixOfJoin(a, k, b.segs[..j], b.kids[..j], h);
        }
      }
    }
  }

  lemma PrefixOfJoin(a: Node, k: Segment, sb: seq<Segment>, kb: seq<Node>, h: nat)
    requires h > 0 && |a.kids| == |a.segs| + 1 && |kb| == |sb|
    ensures Prefix(a.segs + [k] + sb, a.kids + kb, h - 1) == Flatten(a, h) + [k] + Prefix(sb, kb, h - 1)
  {
    var m := |a.segs|;
    var x := a.kids[m];
    assert a.kids == a.kids[..m] + [x] + [];
    assert a.segs == a.segs + [];
    WeaveAround(a.segs, a.kids[..m], x, [], [], h - 1);
    assert a.segs + [k] + sb == (a.segs + [k]) + sb;
    assert a.kids + kb == (a.kids[..m] + [x]) + kb;
    PrefixJoin(a.segs + [k], a.kids[..m] + [x], sb, kb, h - 1);
    PrefixJoin(a.segs, a.kids[..m], [k], [x], h - 1);
    PrefixOne(k, x, h - 1);
  }

  // ----- splitting -----

  /** Kid i of n is replaced by two, with a segment between them. */
  function Widen(n: Node, i: nat, l: Node, m: Segment, r: Node): Node
    requires i < |n.kids| == |n.segs| + 1
  {
    Node(n.segs[..i] + [m] + n.segs[i..], n.kids[..i] + [l, r] + n.kids[i + 1..], n.gap)
  }

  /** What is left of a node after room has been made below it: one node, or two
      with a segment between them, and the coordinates of the gap in the one, or
      in the second of the two if right. */
  datatype Roomy = One(n: Node, c: Coord) | Two(l: Node, m: Segment, r: Node, right: bool, c: Coord)

  /** The halves of a full node, either side of its median. */
  function LeftHalf(n: Node, h: nat, p: int): Node
    requires |n.segs| == MAX_DEGREE - 1 && (h > 0 ==> |n.kids| == MAX_DEGREE)
  {
    var k := n.segs[MIN_DEGREE - 1];
    Fresh(n.segs[..MIN_DEGREE - 1], if h == 0 then [] else n.kids[..MIN_DEGREE], h, p, k.start)
  }

  function RightHalf(n: Node, h: nat, q: int): Node
    requires |n.segs| == MAX_DEGREE - 1 && (h > 0 ==> |n.kids| == MAX_DEGREE)
  {
    var k := n.segs[MIN_DEGREE - 1];
    Fresh(n.segs[MIN_DEGREE..], if h == 0 then [] else n.kids[MIN_DEGREE..], h, k.end, q)
  }

  lemma HalvesAreSound(n: Node, h: nat, p: int, q: int)
    requires Sound(n, h, p, q) && |n.segs| == MAX_DEGREE - 1
    ensures var l, r, k := LeftHalf(n, h, p), RightHalf(n, h, q), n.segs[MIN_DEGREE - 1];
            && Full(l, h, p, k.start) && Full(r, h, k.end, q)
            && Flatten(n, h) == Flatten(l, h) + [k] + Flatten(r, h)
            && n.segs == l.segs + [k] + r.segs && n.kids == l.kids + r.kids
            && (h > 0 ==> |l.kids| == |l.segs| + 1 && |r.kids| == |r.segs| + 1)
  {
    var l, r, k := LeftHalf(n, h, p), RightHalf(n, h, q), n.segs[MIN_DEGREE - 1];
    assert n.segs == l.segs + [k] + r.segs && n.kids == l.kids + r.kids;
    if h > 0 { SoundKidsJoin(l.segs, l.kids, k, r.segs, r.kids, h - 1, p, q); }
    FreshIsSound(l.segs, l.kids, h, p, k.start);
    FreshIsSound(r.segs, r.kids, h, k.end, q);
    FlattenJoin(l, k, r, n, h);
  }

  /** Widening a node by the halves of a kid does not change what it holds. */
  lemma WidenFlatten(n: Node, h: nat, i: nat, l: Node, m: Segment, r: Node)
    requires h > 0 && i < |n.kids| == |n.segs| + 1
    requires Flatten(l, h - 1) + [m] + Flatten(r, h - 1) == Flatten(n.kids[i], h - 1)
    ensures Flatten(Widen(n, i, l, m, r), h) == Flatten(n, h)
  {
    hide Prefix, Suffix;
    var sa, ka, x, sb, kb := n.segs[..i], n.kids[..i], n.kids[i], n.segs[i..], n.kids[i + 1..];
    var w := Widen(n, i, l, m, r);
    assert n.segs == sa + sb && n.kids == ka + [x] + kb;
    assert w.segs == (sa + [m]) + sb && w.kids == (ka + [l]) + [r] + kb;
    WeaveAround(sa, ka, x, sb, kb, h - 1);
    WeaveAround(sa + [m], ka + [l], r, sb, kb, h - 1);
    PrefixJoin(sa, ka, [m], [l], h - 1);
    PrefixOne(m, l, h - 1);
  }

  lemma WidenIsSound(n: Node, h: nat, p: int, q: int, i: nat, l: Node, m: Segment, r: Node)
    requires h > 0 && Sound(n, h, p, q) && i <= |n.segs| < MAX_DEGREE - 1
    requires Full(l, h - 1, Low(n.segs, i, p), m.start) && Full(r, h - 1, m.end, High(n.segs, i, q))
    requires Flatten(l, h - 1) + [m] + Flatten(r, h - 1) == Flatten(n.kids[i], h - 1)
    ensures Sound(Widen(n, i, l, m, r), h, p, q)
  {
    hide Full, SoundPrefix, SoundSuffix, SoundKids, Flatten;
    var sa, ka, x, sb, kb := n.segs[..i], n.kids[..i], n.kids[i], n.segs[i..], n.kids[i + 1..];
    var w := Widen(n, i, l, m, r);
    assert n.segs == sa + sb && n.kids == ka + [x] + kb;
    assert w.segs == (sa + [m]) + sb && w.kids == (ka + [l]) + [r] + kb;
    SoundAround(sa, ka, x, sb, kb, h - 1, p, q);
    SoundPrefixOneMore(sa, ka, m, l, h - 1, p);
    SoundAround(sa + [m], ka + [l], r, sb, kb, h - 1, p, q);
    WidenFlatten(n, h, i, l, m, r);
  }

  /** Nor where a gap below the kid is. */
  lemma WidenBefore(n: Node, h: nat, i: nat, l: Node, m: Segment, r: Node, right: bool, d: Coord)
    requires h > 0 && i < |n.kids| == |n.segs| + 1 && At(if right then r else l, h - 1, d)
    ensures var w, c := Widen(n, i, l, m, r), [if right then i + 1 else i] + d;
            && At(w, h, c) && LeafSize(w, h, c) == LeafSize(if right then r else l, h - 1, d)
            && Before(w, h, c) == Prefix(n.segs[..i], n.kids[..i], h - 1)
                                  + (if right then Flatten(l, h - 1) + [m] + Before(r, h - 1, d)
                                     else Before(l, h - 1, d))
  {
    hide Prefix;
    var w, j := Widen(n, i, l, m, r), if right then i + 1 else i;
    var c := [j] + d;
    assert c[1..] == d;
    if right {
      assert w.kids[j] == r;
      assert w.segs[..j] == n.segs[..i] + [m] && w.kids[..j] == n.kids[..i] + [l];
      PrefixJoin(n.segs[..i], n.kids[..i], [m], [l], h - 1);
      PrefixOne(m, l, h - 1);
    } else {
      assert w.kids[j] == l;
      assert w.segs[..j] == n.segs[..i] && w.kids[..j] == n.kids[..i];
    }
  }

  /** The kid that a gap is below. */
  lemma KidIsSound(n: Node, h: nat, p: int, q: int, i: nat)
    requires h > 0 && Sound(n, h, p, q) && i <= |n.segs|
    ensures Full(n.kids[i], h - 1, Low(n.segs, i, p), High(n.segs, i, q))
  {
    assert SoundKid(n.segs, n.kids, h - 1, p, q, i);
  }

  /** No node on the way to c has too many segments. */
  ghost predicate Slim(n: Node, h: nat, c: Coord)
    requires At(n, h, c)
    decreases h
  {
    |n.segs| < MAX_DEGREE && (h > 0 ==> Slim(n.kids[c[0]], h - 1, c[1..]))
  }

  lemma {:induction false} SoundIsSlim(n: Node, h: nat, p: int, q: int, c: Coord)
    requires Sound(n, h, p, q) && At(n, h, c)
    ensures Slim(n, h, c)
    decreases h
  {
    if h > 0 {
      KidIsSound(n, h, p, q, c[0]);
      SoundIsSlim(n.kids[c[0]], h - 1, Low(n.segs, c[0], p), High(n.segs, c[0], q), c[1..]);
    }
  }

  /** Room has been made below kid i: a median that comes up goes into n, or, if n
      is full, into the half of n that has the kid. */
  function RoomOver(n: Node, h: nat, p: int, q: int, i: nat, below: Roomy): Roomy
    requires h > 0 && i < |n.kids| == |n.segs| + 1 <= MAX_DEGREE
  {
    match below
    case One(x, d) => One(n.(kids := n.kids[i := x]), [i] + d)
    case Two(l, m, r, right, d) =>
      var j := if right then i + 1 else i;
      if |n.segs| < MAX_DEGREE - 1 then One(Widen(n, i, l, m, r), [j] + d)
      else
        var a, k, b := LeftHalf(n, h, p), n.segs[MIN_DEGREE - 1], RightHalf(n, h, q);
        if i < MIN_DEGREE then Two(Widen(a, i, l, m, r), k, b, false, [j] + d)
        else Two(a, k, Widen(b, i - MIN_DEGREE, l, m, r), true, [j - MIN_DEGREE] + d)
  }

  /** Make room below n for one more segment in the gap at c: a full leaf is split
      at its median, which goes to its parent, where room is made first. */
  function Room(n: Node, h: nat, p: int, q: int, c: Coord): Roomy
    requires At(n, h, c) && Slim(n, h, c)
    decreases h
  {
    var i := c[0];
    if h > 0 then RoomOver(n, h, p, q, i, Room(n.kids[i], h - 1, Low(n.segs, i, p), High(n.segs, i, q), c[1..]))
    else if |n.segs| < MAX_DEGREE - 1 then One(n, c)
    else if i < MIN_DEGREE then Two(LeftHalf(n, 0, p), n.segs[MIN_DEGREE - 1], RightHalf(n, 0, q), false, c)
    else Two(LeftHalf(n, 0, p), n.segs[MIN_DEGREE - 1], RightHalf(n, 0, q), true, [i - MIN_DEGREE])
  }

  /** Room has been made: the same segments, the same gap, and a leaf that is not
      full. Two nodes come only of a full one. */
  ghost predicate MakesRoom(n: Node, h: nat, p: int, q: int, c: Coord, res: Roomy)
    requires At(n, h, c)
  {
    match res
    case One(x, d) =>
      && Sound(x, h, p, q) && |x.segs| >= |n.segs| && Flatten(x, h) == Flatten(n, h)
      && At(x, h, d) && Before(x, h, d) == Before(n, h, c) && LeafSize(x, h, d) < MAX_DEGREE - 1
    case Two(l, m, r, right, d) =>
      && |n.segs| == MAX_DEGREE - 1
      && Full(l, h, p, m.start) && Full(r, h, m.end, q) && Flatten(n, h) == Flatten(l, h) + [m] + Flatten(r, h)
      && At(if right then r else l, h, d) && LeafSize(if right then r else l, h, d) < MAX_DEGREE - 1
      && Before(n, h, c) == (if right then Flatten(l, h) + [m] + Before(r, h, d) else Before(l, h, d))
  }

  lemma RoomInLeaf(n: Node, p: int, q: int, c: Coord)
    requires Sound(n, 0, p, q) && At(n, 0, c) && Slim(n, 0, c)
    ensures MakesRoom(n, 0, p, q, c, Room(n, 0, p, q, c))
  {
    if |n.segs| == MAX_DEGREE - 1 {
      var l, k, r := LeftHalf(n, 0, p), n.segs[MIN_DEGREE - 1], RightHalf(n, 0, q);
      HalvesAreSound(n, 0, p, q);
      BeforeJoin(l, k, r, n, 0, c);
      assert c[0] >= MIN_DEGREE ==> Shift(c, -|l.segs| - 1) == [c[0] - MIN_DEGREE];
    }
  }

  /** A kid is exchanged for another that holds the same. */
  lemma SameKid(n: Node, h: nat, p: int, q: int, i: nat, x: Node)
    requires h > 0 && Sound(n, h, p, q) && i <= |n.segs|
    requires Full(x, h - 1, Low(n.segs, i, p), High(n.segs, i, q)) && Flatten(x, h - 1) == Flatten(n.kids[i], h - 1)
    ensures Sound(n.(kids := n.kids[i := x]), h, p, q) && Flatten(n.(kids := n.kids[i := x]), h) == Flatten(n, h)
  {
    hide Full, SoundPrefix, SoundSuffix, SoundKids, Prefix, Suffix;
    var sa, ka, y, sb, kb := n.segs[..i], n.kids[..i], n.kids[i], n.segs[i..], n.kids[i + 1..];
    var w := n.(kids := n.kids[i := x]);
    assert n.segs == sa + sb && n.kids == ka + [y] + kb && w.kids == ka + [x] + kb;
    SoundAround(sa, ka, y, sb, kb, h - 1, p, q);
    SoundAround(sa, ka, x, sb, kb, h - 1, p, q);
    WeaveAround(sa, ka, y, sb, kb, h - 1);
    WeaveAround(sa, ka, x, sb, kb, h - 1);
  }

  lemma RoomBelow(n: Node, h: nat, p: int, q: int, c: Coord, x: Node, d: Coord)
    requires h > 0 && Sound(n, h, p, q) && At(n, h, c)
    requires MakesRoom(n.kids[c[0]], h - 1, Low(n.segs, c[0], p), High(n.segs, c[0], q), c[1..], One(x, d))
    requires Full(n.kids[c[0]], h - 1, Low(n.segs, c[0], p), High(n.segs, c[0], q)) && |n.segs| < MAX_DEGREE
    ensures MakesRoom(n, h, p, q, c, One(n.(kids := n.kids[c[0] := x]), [c[0]] + d))
  {
    hide Sound, Flatten;
    var i := c[0];
    SameKid(n, h, p, q, i, x);
    assert ([i] + d)[1..] == d;
    assert n.kids[i := x][..i] == n.kids[..i];
  }

  lemma RoomWidens(n: Node, h: nat, p: int, q: int, c: Coord, l: Node, m: Segment, r: Node, right: bool, d: Coord)
    requires h > 0 && Sound(n, h, p, q) && At(n, h, c) && |n.segs| < MAX_DEGREE - 1
    requires MakesRoom(n.kids[c[0]], h - 1, Low(n.segs, c[0], p), High(n.segs, c[0], q), c[1..], Two(l, m, r, right, d))
    ensures MakesRoom(n, h, p, q, c, One(Widen(n, c[0], l, m, r), [if right then c[0] + 1 else c[0]] + d))
  {
    hide Sound, Flatten, Full;
    var i := c[0];
    WidenFlatten(n, h, i, l, m, r);
    WidenIsSound(n, h, p, q, i, l, m, r);
    WidenBefore(n, h, i, l, m, r, right, d);
  }

  /** A full node is split before its kid's median comes up. */
  lemma RoomSplits(n: Node, h: nat, p: int, q: int, c: Coord, l: Node, m: Segment, r: Node, right: bool, d: Coord)
    requires h > 0 && Sound(n, h, p, q) && At(n, h, c) && |n.segs| == MAX_DEGREE - 1
    requires MakesRoom(n.kids[c[0]], h - 1, Low(n.segs, c[0], p), High(n.segs, c[0], q), c[1..], Two(l, m, r, right, d))
    ensures var a, k, b := LeftHalf(n, h, p), n.segs[MIN_DEGREE - 1], RightHalf(n, h, q);
            var j := if right then c[0] + 1 else c[0];
            if c[0] < MIN_DEGREE then MakesRoom(n, h, p, q, c, Two(Widen(a, c[0], l, m, r), k, b, false, [j] + d))
            else MakesRoom(n, h, p, q, c, Two(a, k, Widen(b, c[0] - MIN_DEGREE, l, m, r), true, [j - MIN_DEGREE] + d))
  {
    hide Flatten, Before, Widen, MaxGap, SoundKids;
    var a, k, b, i := LeftHalf(n, h, p), n.segs[MIN_DEGREE - 1], RightHalf(n, h, q), c[0];
    HalvesAreSound(n, h, p, q);
    BeforeJoin(a, k, b, n, h, c);
    if i < MIN_DEGREE {
      RoomInHalf(n, h, a, p, k.start, c, i, l, m, r, right, d, Low(n.segs, i, p), High(n.segs, i, q));
    } else {
      var e := Shift(c, -|a.segs| - 1);
      assert e[1..] == c[1..] && e[0] == i - MIN_DEGREE;
      RoomInHalf(n, h, b, k.end, q, e, i, l, m, r, right, d, Low(n.segs, i, p), High(n.segs, i, q));
    }
  }

  lemma RoomInHalf(n: Node, h: nat, a: Node, p: int, q: int, e: Coord, i: nat, l: Node, m: Segment, r: Node,
                   right: bool, d: Coord,
                   lo: int, hi: int)
    requires h > 0 && Full(a, h, p, q) && At(a, h, e) && |a.segs| < MAX_DEGREE - 1
    requires i < |n.kids| && a.kids[e[0]] == n.kids[i] && lo == Low(a.segs, e[0], p) && hi == High(a.segs, e[0], q)
    requires At(n.kids[i], h - 1, e[1..]) && MakesRoom(n.kids[i], h - 1, lo, hi, e[1..], Two(l, m, r, right, d))
    ensures var w, f := Widen(a, e[0], l, m, r), [if right then e[0] + 1 else e[0]] + d;
            Full(w, h, p, q) && Flatten(w, h) == Flatten(a, h) && At(w, h, f) && Before(w, h, f) == Before(a, h, e)
            && LeafSize(w, h, f) < MAX_DEGREE - 1
  {
    hide Flatten;
    WidenFlatten(a, h, e[0], l, m, r);
    WidenIsSound(a, h, p, q, e[0], l, m, r);
    WidenBefore(a, h, e[0], l, m, r, right, d);
  }

  lemma RoomOverIsMade(n: Node, h: nat, p: int, q: int, c: Coord, below: Roomy)
    requires h > 0 && Sound(n, h, p, q) && At(n, h, c)
    requires MakesRoom(n.kids[c[0]], h - 1, Low(n.segs, c[0], p), High(n.segs, c[0], q), c[1..], below)
    ensures MakesRoom(n, h, p, q, c, RoomOver(n, h, p, q, c[0], below))
  {
    hide MakesRoom, Flatten, SoundKids, LeftHalf, RightHalf, Widen, MaxGap;
    KidIsSound(n, h, p, q, c[0]);
    match below
    case One(x, d) => RoomBelow(n, h, p, q, c, x, d);
    case Two(l, m, r, right, d) =>
      if |n.segs| < MAX_DEGREE - 1 { RoomWidens(n, h, p, q, c, l, m, r, right, d); }
      else { RoomSplits(n, h, p, q, c, l, m, r, right, d); }
  }

  /** Room is made wherever a gap is. */
  lemma {:induction false} RoomIsMade(n: Node, h: nat, p: int, q: int, c: Coord)
    requires Sound(n, h, p, q) && At(n, h, c) && Slim(n, h, c)
    ensures MakesRoom(n, h, p, q, c, Room(n, h, p, q, c))
    decreases h
  {
    hide MakesRoom, Flatten, SoundKids, RoomOver, MaxGap;
    if h == 0 {
      RoomInLeaf(n, p, q, c);
    } else {
      var i := c[0];
      KidIsSound(n, h, p, q, i);
      RoomIsMade(n.kids[i], h - 1, Low(n.segs, i, p), High(n.segs, i, q), c[1..]);
      RoomOverIsMade(n, h, p, q, c, Room(n.kids[i], h - 1, Low(n.segs, i, p), High(n.segs, i, q), c[1..]));
    }
  }

  /** A tree: its root may have few segments, but none only if it is a leaf. */
  datatype Tree = Tree(root: Node, h: nat)

  ghost predicate SoundTree(t: Tree, p: int, q: int) { Sound(t.root, t.h, p, q) && (t.h > 0 ==> t.root.segs != []) }

  /** rebalanceBeforeInsert: a full root becomes the only kids of a new one. */
  function RoomInTree(t: Tree, p: int, q: int, c: Coord): (Tree, Coord)
    requires At(t.root, t.h, c) && Slim(t.root, t.h, c)
  {
    match Room(t.root, t.h, p, q, c)
    case One(x, d) => (Tree(x, t.h), d)
    case Two(l, m, r, right, d) => (Tree(Node([m], [l, r], t.root.gap), t.h + 1), [if right then 1 else 0] + d)
  }

  /** Splitting changes neither the segments nor the place of the gap, and ends in
      a leaf that is not full. */
  lemma RoomInTreeIsMade(t: Tree, p: int, q: int, c: Coord)
    requires SoundTree(t, p, q) && At(t.root, t.h, c)
    ensures Slim(t.root, t.h, c)
    ensures var (u, d) := RoomInTree(t, p, q, c);
            && SoundTree(u, p, q) && Flatten(u.root, u.h) == Flatten(t.root, t.h)
            && At(u.root, u.h, d) && Before(u.root, u.h, d) == Before(t.root, t.h, c)
            && LeafSize(u.root, u.h, d) < MAX_DEGREE - 1
  {
    SoundIsSlim(t.root, t.h, p, q, c);
    RoomIsMade(t.root, t.h, p, q, c);
    match Room(t.root, t.h, p, q, c)
    case One(x, d) =>
    case Two(l, m, r, right, d) => NewRoot(t.root, t.h, p, q, c, l, m, r, right, d);
  }

  lemma NewRoot(n: Node, h: nat, p: int, q: int, c: Coord, l: Node, m: Segment, r: Node, right: bool, d: Coord)
    requires Sound(n, h, p, q) && At(n, h, c) && MakesRoom(n, h, p, q, c, Two(l, m, r, right, d))
    ensures var x, e := Node([m], [l, r], n.gap), [if right then 1 else 0] + d;
            && Sound(x, h + 1, p, q) && Flatten(x, h + 1) == Flatten(n, h)
            && At(x, h + 1, e) && Before(x, h + 1, e) == Before(n, h, c) && LeafSize(x, h + 1, e) < MAX_DEGREE - 1
  {
    var x, e := Node([m], [l, r], n.gap), [if right then 1 else 0] + d;
    assert [m] == [] + [m] + [] && [l, r] == [l] + [r];
    WeaveJoin([], [l], m, [], [r], h);
    SoundKidsJoin([], [l], m, [], [r], h, p, q);
    assert SoundKids([], [l], h, p, m.start) && SoundKids([], [r], h, m.end, q);
    assert e[1..] == d;
    if right {
      assert x.segs[..1] == [m] && x.kids[..1] == [l];
      PrefixOne(m, l, h);
    }
  }
}
