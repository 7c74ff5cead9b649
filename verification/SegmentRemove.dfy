/** Mending the tree after a leaf has lost a segment: a node with too few borrows
    from a sibling, or is merged with one. */
module SegmentRemove {
  import opened SegmentList
  import opened SegmentNode
  import opened SegmentInsert
  import opened SegmentGaps

  // ----- two neighbouring kids -----

  /** A node whose kids l and r, with y between them, come after ka and before kb. */
  function WithPair(sa: seq<Segment>, ka: seq<Node>, l: Node, y: Segment, r: Node, sb: seq<Segment>, kb: seq<Node>,
                    gap: int): Node {
    Node(sa + [y] + sb, ka + [l, r] + kb, gap)
  }

  lemma PairFlatten(sa: seq<Segment>, ka: seq<Node>, l: Node, y: Segment, r: Node, sb: seq<Segment>, kb: seq<Node>,
                    gap: int, h: nat)
    requires h > 0 && |ka| == |sa| && |kb| == |sb|
    ensures Flatten(WithPair(sa, ka, l, y, r, sb, kb, gap), h)
            == Prefix(sa, ka, h - 1) + (Flatten(l, h - 1) + [y] + Flatten(r, h - 1)) + Suffix(sb, kb, h - 1)
  {
    hide Prefix, Suffix;
    var n := WithPair(sa, ka, l, y, r, sb, kb, gap);
    assert n.segs == (sa + [y]) + sb && n.kids == (ka + [l]) + [r] + kb;
    WeaveAround(sa + [y], ka + [l], r, sb, kb, h - 1);
    PrefixJoin(sa, ka, [y], [l], h - 1);
    PrefixOne(y, l, h - 1);
  }

  lemma PairSound(sa: seq<Segment>, ka: seq<Node>, l: Node, y: Segment, r: Node, sb: seq<Segment>, kb: seq<Node>,
                  h: nat, p: int, q: int)
    requires |ka| == |sa| && |kb| == |sb|
    ensures SoundKids(sa + [y] + sb, ka + [l, r] + kb, h, p, q) <==>
            && SoundPrefix(sa, ka, h, p) && Full(l, h, LastEnd(sa, p), y.start)
            && Full(r, h, y.end, FirstStart(sb, q)) && SoundSuffix(sb, kb, h, q)
  {
    hide Full, SoundPrefix, SoundSuffix, SoundKids;
    assert sa + [y] + sb == (sa + [y]) + sb && ka + [l, r] + kb == (ka + [l]) + [r] + kb;
    SoundAround(sa + [y], ka + [l], r, sb, kb, h, p, q);
    SoundPrefixOneMore(sa, ka, y, l, h, p);
  }

  lemma SoundSuffixOneMore(k: Segment, x: Node, sb: seq<Segment>, kb: seq<Node>, h: nat, q: int)
    requires |kb| == |sb|
    ensures SoundSuffix([k] + sb, [x] + kb, h, q) <==> Full(x, h, k.end, FirstStart(sb, q)) && SoundSuffix(sb, kb, h, q)
  {
    hide Full;
    var s, ks := [k] + sb, [x] + kb;
    assert InSuffix(s, ks, h, q, 0) <==> Full(x, h, k.end, FirstStart(sb, q));
    forall j | 0 <= j < |kb| ensures InSuffix(s, ks, h, q, j + 1) <==> InSuffix(sb, kb, h, q, j) {}
    hide InSuffix;
    if Full(x, h, k.end, FirstStart(sb, q)) && SoundSuffix(sb, kb, h, q) {
      forall j | 0 <= j < |ks| ensures InSuffix(s, ks, h, q, j) { if j > 0 { assert InSuffix(sb, kb, h, q, j - 1); } }
    }
  }

  lemma PairBefore(sa: seq<Segment>, ka: seq<Node>, l: Node, y: Segment, r: Node, sb: seq<Segment>, kb: seq<Node>,
                   gap: int, h: nat,
                   right: bool, e: Coord)
    requires h > 0 && |ka| == |sa| && |kb| == |sb| && At(if right then r else l, h - 1, e)
    ensures var n, c := WithPair(sa, ka, l, y, r, sb, kb, gap), [if right then |ka| + 1 else |ka|] + e;
            && At(n, h, c)
            && Before(n, h, c) == Prefix(sa, ka, h - 1)
              + (if right then Flatten(l, h - 1) + [y] + Before(r, h - 1, e) else Before(l, h - 1, e))
  {
    hide Prefix;
    var n, j := WithPair(sa, ka, l, y, r, sb, kb, gap), if right then |ka| + 1 else |ka|;
    assert ([j] + e)[1..] == e;
    if right {
      assert n.segs[..j] == sa + [y] && n.kids[..j] == ka + [l];
      PrefixJoin(sa, ka, [y], [l], h - 1);
      PrefixOne(y, l, h - 1);
    } else {
      assert n.segs[..j] == sa && n.kids[..j] == ka;
    }
  }

  // ----- moving one segment, or merging -----

  function Front(n: Node): Node { Node([], if n.kids == [] then [] else [n.kids[0]], 0) }

  function Back(n: Node): Node { Node([], if n.kids == [] then [] else [n.kids[|n.kids| - 1]], 0) }

  /** The left sibling without its last segment and kid. */
  function Shorter(l: Node, h: nat, p: int): Node
    requires l.segs != []
  {
    var m := |l.segs| - 1;
    Fresh(l.segs[..m], if l.kids == [] then [] else l.kids[..|l.kids| - 1], h, p, l.segs[m].start)
  }

  /** The node with the separating segment and the sibling's last kid in front. */
  function Prepended(l: Node, y: Segment, x: Node, h: nat, q: int): Node
    requires l.segs != []
  {
    Fresh([y] + x.segs, Back(l).kids + x.kids, h, l.segs[|l.segs| - 1].end, q)
  }

  lemma RotateRightParts(l: Node, y: Segment, x: Node, h: nat, p: int, q: int)
    requires Full(l, h, p, y.start) && |l.segs| >= MIN_DEGREE && Sound(x, h, y.end, q) && |x.segs| == MIN_DEGREE - 2
    ensures var l2, z, x2, t := Shorter(l, h, p), l.segs[|l.segs| - 1], Prepended(l, y, x, h, q), Back(l);
            && l.segs == l2.segs + [z] + t.segs && l.kids == l2.kids + t.kids
            && x2.segs == t.segs + [y] + x.segs && x2.kids == t.kids + x.kids
            && (h > 0 ==> |l2.kids| == |l2.segs| + 1 && |t.kids| == 1 && |x.kids| == |x.segs| + 1)
            && Full(l2, h, p, z.start) && Full(x2, h, z.end, q)
  {
    var l2, z, x2, t := Shorter(l, h, p), l.segs[|l.segs| - 1], Prepended(l, y, x, h, q), Back(l);
    assert l.segs == l2.segs + [z] + t.segs && l.kids == l2.kids + t.kids;
    assert x2.segs == t.segs + [y] + x.segs && x2.kids == t.kids + x.kids;
    if h > 0 {
      SoundKidsJoin(l2.segs, l2.kids, z, t.segs, t.kids, h - 1, p, y.start);
      SoundKidsJoin(t.segs, t.kids, y, x.segs, x.kids, h - 1, z.end, q);
    }
    FreshIsSound(l2.segs, l2.kids, h, p, z.start);
    FreshIsSound(x2.segs, x2.kids, h, z.end, q);
  }

  lemma RotateRight(l: Node, y: Segment, x: Node, h: nat, p: int, q: int, d: Coord)
    requires Full(l, h, p, y.start) && |l.segs| >= MIN_DEGREE && Sound(x, h, y.end, q) && |x.segs| == MIN_DEGREE - 2
    requires At(x, h, d)
    ensures var l2, z, x2, e := Shorter(l, h, p), l.segs[|l.segs| - 1], Prepended(l, y, x, h, q), Shift(d, 1);
            && Full(l2, h, p, z.start) && Full(x2, h, z.end, q) && At(x2, h, e)
            && Flatten(l2, h) + [z] + Flatten(x2, h) == Flatten(l, h) + [y] + Flatten(x, h)
            && Flatten(l2, h) + [z] + Before(x2, h, e) == Flatten(l, h) + [y] + Before(x, h, d)
  {
    hide Sound, Full, Flatten, Shorter, Prepended;
    var l2, z, x2, t := Shorter(l, h, p), l.segs[|l.segs| - 1], Prepended(l, y, x, h, q), Back(l);
    RotateRightParts(l, y, x, h, p, q);
    FlattenJoin(l2, z, t, l, h);
    FlattenJoin(t, y, x, x2, h);
    BeforeJoin(t, y, x, x2, h, Shift(d, 1));
    assert Shift(Shift(d, 1), -1) == d;
  }

  function Appended(x: Node, y: Segment, r: Node, h: nat, p: int): Node
    requires r.segs != []
  {
    Fresh(x.segs + [y], x.kids + Front(r).kids, h, p, r.segs[0].start)
  }

  function Later(r: Node, h: nat, q: int): Node
    requires r.segs != []
  {
    Fresh(r.segs[1..], if r.kids == [] then [] else r.kids[1..], h, r.segs[0].end, q)
  }

  lemma RotateLeft(x: Node, y: Segment, r: Node, h: nat, p: int, q: int, d: Coord)
    requires Full(r, h, y.end, q) && |r.segs| >= MIN_DEGREE && Sound(x, h, p, y.start) && |x.segs| == MIN_DEGREE - 2
    requires At(x, h, d)
    ensures var x2, z, r2 := Appended(x, y, r, h, p), r.segs[0], Later(r, h, q);
            && Full(x2, h, p, z.start) && Full(r2, h, z.end, q) && At(x2, h, d)
            && Flatten(x2, h) + [z] + Flatten(r2, h) == Flatten(x, h) + [y] + Flatten(r, h)
            && Before(x2, h, d) == Before(x, h, d)
  {
    var x2, z, r2, t := Appended(x, y, r, h, p), r.segs[0], Later(r, h, q), Front(r);
    assert r.segs == t.segs + [z] + r2.segs && r.kids == t.kids + r2.kids;
    assert x2.segs == x.segs + [y] + t.segs && x2.kids == x.kids + t.kids;
    if h > 0 {
      SoundKidsJoin(t.segs, t.kids, z, r2.segs, r2.kids, h - 1, y.end, q);
      SoundKidsJoin(x.segs, x.kids, y, t.segs, t.kids, h - 1, p, z.start);
    }
    FreshIsSound(x2.segs, x2.kids, h, p, z.start);
    FreshIsSound(r2.segs, r2.kids, h, z.end, q);
    hide Sound, Full;
    FlattenJoin(t, z, r2, r, h);
    FlattenJoin(x, y, t, x2, h);
    BeforeJoin(x, y, t, x2, h, d);
  }

  function Merged(l: Node, y: Segment, r: Node, h: nat, p: int, q: int): Node {
    Fresh(l.segs + [y] + r.segs, l.kids + r.kids, h, p, q)
  }

  lemma MergedIsSound(l: Node, y: Segment, r: Node, h: nat, p: int, q: int)
    requires Sound(l, h, p, y.start) && Sound(r, h, y.end, q) && MIN_DEGREE - 1 <= |l.segs| + |r.segs| + 1 < MAX_DEGREE
    ensures var m := Merged(l, y, r, h, p, q); Full(m, h, p, q) && Flatten(m, h) == Flatten(l, h) + [y] + Flatten(r, h)
  {
    var m := Merged(l, y, r, h, p, q);
    if h > 0 { SoundKidsJoin(l.segs, l.kids, y, r.segs, r.kids, h - 1, p, q); }
    FreshIsSound(m.segs, m.kids, h, p, q);
    FlattenJoin(l, y, r, m, h);
  }

  // ----- one level -----

  /** Kid i has too few segments: it borrows from the previous sibling, or from the
      next, or is merged with one of them. D is a gap below it. */
  function Fix(n: Node, h: nat, p: int, q: int, i: nat, d: Coord): (Node, Coord)
    requires h > 0 && 0 < |n.segs| && i <= |n.segs| && |n.kids| == |n.segs| + 1 && d != []
    requires forall j :: 0 <= j < |n.kids| ==> n.kids[j].segs != []
  {
    var g, x := h - 1, n.kids[i];
    if i > 0 && |n.kids[i - 1].segs| >= MIN_DEGREE then
      var l, y := n.kids[i - 1], n.segs[i - 1];
      (WithPair(n.segs[..i - 1], n.kids[..i - 1], Shorter(l, g, Low(n.segs, i - 1, p)), l.segs[|l.segs| - 1],
                Prepended(l, y, x, g, High(n.segs, i, q)), n.segs[i..], n.kids[i + 1..], n.gap),
       [i] + Shift(d, 1))
    else if i < |n.segs| && |n.kids[i + 1].segs| >= MIN_DEGREE then
      var r, y := n.kids[i + 1], n.segs[i];
      (WithPair(n.segs[..i], n.kids[..i], Appended(x, y, r, g, Low(n.segs, i, p)), r.segs[0],
                Later(r, g, High(n.segs, i + 1, q)), n.segs[i + 1..], n.kids[i + 2..], n.gap),
       [i] + d)
    else if i > 0 then
      var l, y := n.kids[i - 1], n.segs[i - 1];
      (Node(n.segs[..i - 1] + n.segs[i..],
            n.kids[..i - 1] + [Merged(l, y, x, g, Low(n.segs, i - 1, p), High(n.segs, i, q))] + n.kids[i + 1..], n.gap),
       [i - 1] + Shift(d, |l.segs| + 1))
    else
      var r, y := n.kids[1], n.segs[0];
      (Node(n.segs[1..], [Merged(x, y, r, g, p, High(n.segs, 1, q))] + n.kids[2..], n.gap), [0] + d)
  }

  /** All of a node but kid i is sound, and that has one segment less than enough. */
  ghost predicate Lacking(n: Node, h: nat, p: int, q: int, i: nat) {
    && h > 0 && 0 < |n.segs| < MAX_DEGREE && i <= |n.segs| && |n.kids| == |n.segs| + 1
    && SoundPrefix(n.segs[..i], n.kids[..i], h - 1, p) && SoundSuffix(n.segs[i..], n.kids[i + 1..], h - 1, q)
    && Sound(n.kids[i], h - 1, Low(n.segs, i, p), High(n.segs, i, q)) && |n.kids[i].segs| == MIN_DEGREE - 2
    && n.gap == MaxGap(p, Flatten(n, h), q)
  }

  /** What mending keeps, and what it may cost. */
  ghost predicate Mended(n: Node, h: nat, p: int, q: int, c: Coord, x: Node, d: Coord)
    requires At(n, h, c)
  {
    && Sound(x, h, p, q) && Flatten(x, h) == Flatten(n, h) && At(x, h, d) && Before(x, h, d) == Before(n, h, c)
    && |n.segs| - 1 <= |x.segs| <= |n.segs|
  }

  /** Kids i and i + 1 as a pair. */
  lemma PairAt(n: Node, i: nat, p: int, q: int)
    requires i < |n.segs| && |n.kids| == |n.segs| + 1
    ensures n == WithPair(n.segs[..i], n.kids[..i], n.kids[i], n.segs[i], n.kids[i + 1],
                          n.segs[i + 1..], n.kids[i + 2..], n.gap)
    ensures n.segs[..i + 1] == n.segs[..i] + [n.segs[i]] && n.kids[..i + 1] == n.kids[..i] + [n.kids[i]]
    ensures n.segs[i..] == [n.segs[i]] + n.segs[i + 1..] && n.kids[i + 1..] == [n.kids[i + 1]] + n.kids[i + 2..]
    ensures Low(n.segs, i, p) == LastEnd(n.segs[..i], p) && High(n.segs, i + 1, q) == FirstStart(n.segs[i + 1..], q)
  {
  }

  lemma FixBorrowsLeft(n: Node, h: nat, p: int, q: int, i: nat, d: Coord)
    requires Lacking(n, h, p, q, i) && At(n.kids[i], h - 1, d) && i > 0 && |n.kids[i - 1].segs| >= MIN_DEGREE
    requires forall j :: 0 <= j < |n.kids| ==> n.kids[j].segs != []
    ensures var (x, e) := Fix(n, h, p, q, i, d); At(n, h, [i] + d) && Mended(n, h, p, q, [i] + d, x, e)
  {
    hide Full, Sound, Prefix, Suffix, Flatten, Shorter, Prepended, SoundPrefix, SoundSuffix, Mended;
    PairAt(n, i - 1, p, q);
    var g, x, l, y := h - 1, n.kids[i], n.kids[i - 1], n.segs[i - 1];
    var sa, ka, sb, kb := n.segs[..i - 1], n.kids[..i - 1], n.segs[i..], n.kids[i + 1..];
    var lo, hi := Low(n.segs, i - 1, p), High(n.segs, i, q);
    var l2, z, x2 := Shorter(l, g, lo), l.segs[|l.segs| - 1], Prepended(l, y, x, g, hi);
    SoundPrefixOneMore(sa, ka, y, l, g, p);
    RotateRight(l, y, x, g, lo, hi, d);
    PairFixed(n, h, p, q, sa, ka, sb, kb, l, y, x, true, d, l2, z, x2, true, Shift(d, 1));
  }

  lemma FixBorrowsRight(n: Node, h: nat, p: int, q: int, i: nat, d: Coord)
    requires Lacking(n, h, p, q, i) && At(n.kids[i], h - 1, d) && i < |n.segs| && |n.kids[i + 1].segs| >= MIN_DEGREE
    requires i == 0 || |n.kids[i - 1].segs| < MIN_DEGREE
    requires forall j :: 0 <= j < |n.kids| ==> n.kids[j].segs != []
    ensures var (x, e) := Fix(n, h, p, q, i, d); At(n, h, [i] + d) && Mended(n, h, p, q, [i] + d, x, e)
  {
    hide Full, Sound, Prefix, Suffix, Flatten, Appended, Later, SoundPrefix, SoundSuffix, Mended;
    PairAt(n, i, p, q);
    var g, x, r, y := h - 1, n.kids[i], n.kids[i + 1], n.segs[i];
    var sa, ka, sb, kb := n.segs[..i], n.kids[..i], n.segs[i + 1..], n.kids[i + 2..];
    var lo, hi := Low(n.segs, i, p), High(n.segs, i + 1, q);
    var x2, z, r2 := Appended(x, y, r, g, lo), r.segs[0], Later(r, g, hi);
    SoundSuffixOneMore(y, r, sb, kb, g, q);
    RotateLeft(x, y, r, g, lo, hi, d);
    PairFixed(n, h, p, q, sa, ka, sb, kb, x, y, r, false, d, x2, z, r2, false, d);
  }

  /** A pair of kids is exchanged for one that holds the same. */
  lemma PairMerged(n: Node, h: nat, p: int, q: int, sa: seq<Segment>, ka: seq<Node>, sb: seq<Segment>, kb: seq<Node>,
                   l: Node, y: Segment, r: Node, right: bool, d: Coord)
    requires h > 0 && |ka| == |sa| && |kb| == |sb| && n == WithPair(sa, ka, l, y, r, sb, kb, n.gap)
    requires |n.segs| < MAX_DEGREE
    requires SoundPrefix(sa, ka, h - 1, p) && SoundSuffix(sb, kb, h - 1, q)
    requires Sound(l, h - 1, LastEnd(sa, p), y.start) && Sound(r, h - 1, y.end, FirstStart(sb, q))
    requires MIN_DEGREE - 1 <= |l.segs| + |r.segs| + 1 < MAX_DEGREE
    requires At(if right then r else l, h - 1, d) && n.gap == MaxGap(p, Flatten(n, h), q)
    ensures var m := Merged(l, y, r, h - 1, LastEnd(sa, p), FirstStart(sb, q));
            var w := Node(sa + sb, ka + [m] + kb, n.gap);
            var c, f := [if right then |ka| + 1 else |ka|] + d, [|ka|] + (if right then Shift(d, |l.segs| + 1) else d);
            At(n, h, c) && Mended(n, h, p, q, c, w, f)
  {
    var g, m := h - 1, Merged(l, y, r, h - 1, LastEnd(sa, p), FirstStart(sb, q));
    var w := Node(sa + sb, ka + [m] + kb, n.gap);
    var e := if right then Shift(d, |l.segs| + 1) else d;
    assert g > 0 ==> |l.kids| == |l.segs| + 1 && |r.kids| == |r.segs| + 1;
    MergedIsSound(l, y, r, g, LastEnd(sa, p), FirstStart(sb, q));
    hide Full, Sound, Prefix, Suffix, Flatten, SoundPrefix, SoundSuffix, SoundKids;
    PairFlatten(sa, ka, l, y, r, sb, kb, n.gap, h);
    PairBefore(sa, ka, l, y, r, sb, kb, n.gap, h, right, d);
    BeforeJoin(l, y, r, m, g, e);
    assert right ==> Shift(e, -|l.segs| - 1) == d;
    MergedInPlace(sa, ka, m, sb, kb, n.gap, h, p, q, e);
  }

  lemma MergedInPlace(sa: seq<Segment>, ka: seq<Node>, m: Node, sb: seq<Segment>, kb: seq<Node>, gap: int, h: nat,
                      p: int, q: int, e: Coord)
    requires h > 0 && |ka| == |sa| && |kb| == |sb| && |sa| + |sb| < MAX_DEGREE && At(m, h - 1, e)
    requires SoundPrefix(sa, ka, h - 1, p) && SoundSuffix(sb, kb, h - 1, q)
    requires Full(m, h - 1, LastEnd(sa, p), FirstStart(sb, q))
    requires gap == MaxGap(p, Prefix(sa, ka, h - 1) + Flatten(m, h - 1) + Suffix(sb, kb, h - 1), q)
    ensures var w := Node(sa + sb, ka + [m] + kb, gap);
            && Sound(w, h, p, q) && Flatten(w, h) == Prefix(sa, ka, h - 1) + Flatten(m, h - 1) + Suffix(sb, kb, h - 1)
            && At(w, h, [|ka|] + e) && Before(w, h, [|ka|] + e) == Prefix(sa, ka, h - 1) + Before(m, h - 1, e)
  {
    hide Full, Prefix, Suffix, SoundPrefix, SoundSuffix, SoundKids;
    var w := Node(sa + sb, ka + [m] + kb, gap);
    WeaveAround(sa, ka, m, sb, kb, h - 1);
    SoundAround(sa, ka, m, sb, kb, h - 1, p, q);
    assert ([|ka|] + e)[1..] == e;
    assert w.segs[..|ka|] == sa && w.kids[..|ka|] == ka;
  }

  /** A pair of kids is exchanged for another that holds the same. */
  lemma PairFixed(n: Node, h: nat, p: int, q: int, sa: seq<Segment>, ka: seq<Node>, sb: seq<Segment>, kb: seq<Node>,
                  l: Node, y: Segment, r: Node, right: bool, d: Coord,
                  l2: Node, z: Segment, r2: Node, right2: bool, e: Coord)
    requires h > 0 && |ka| == |sa| && |kb| == |sb| && n == WithPair(sa, ka, l, y, r, sb, kb, n.gap)
    requires |n.segs| < MAX_DEGREE
    requires SoundPrefix(sa, ka, h - 1, p) && SoundSuffix(sb, kb, h - 1, q)
    requires Full(l2, h - 1, LastEnd(sa, p), z.start) && Full(r2, h - 1, z.end, FirstStart(sb, q))
    requires Flatten(l2, h - 1) + [z] + Flatten(r2, h - 1) == Flatten(l, h - 1) + [y] + Flatten(r, h - 1)
    requires At(if right then r else l, h - 1, d) && At(if right2 then r2 else l2, h - 1, e)
    requires (if right2 then Flatten(l2, h - 1) + [z] + Before(r2, h - 1, e) else Before(l2, h - 1, e))
             == (if right then Flatten(l, h - 1) + [y] + Before(r, h - 1, d) else Before(l, h - 1, d))
    requires n.gap == MaxGap(p, Flatten(n, h), q)
    ensures var w := WithPair(sa, ka, l2, z, r2, sb, kb, n.gap);
            var c, f := [if right then |ka| + 1 else |ka|] + d, [if right2 then |ka| + 1 else |ka|] + e;
            At(n, h, c) && Mended(n, h, p, q, c, w, f)
  {
    hide Full, Prefix, Suffix, Flatten, SoundPrefix, SoundSuffix, SoundKids;
    var w := WithPair(sa, ka, l2, z, r2, sb, kb, n.gap);
    PairFlatten(sa, ka, l, y, r, sb, kb, n.gap, h);
    PairFlatten(sa, ka, l2, z, r2, sb, kb, n.gap, h);
    PairSound(sa, ka, l2, z, r2, sb, kb, h - 1, p, q);
    PairBefore(sa, ka, l, y, r, sb, kb, n.gap, h, right, d);
    PairBefore(sa, ka, l2, z, r2, sb, kb, n.gap, h, right2, e);
  }

  lemma FixIsMerge(n: Node, h: nat, p: int, q: int, i: nat, d: Coord)
    requires h > 0 && 0 < i <= |n.segs| && |n.kids| == |n.segs| + 1 && d != []
    requires forall j :: 0 <= j < |n.kids| ==> n.kids[j].segs != []
    requires |n.kids[i - 1].segs| < MIN_DEGREE && (i == |n.segs| || |n.kids[i + 1].segs| < MIN_DEGREE)
    ensures var sa, ka, sb, kb := n.segs[..i - 1], n.kids[..i - 1], n.segs[i..], n.kids[i + 1..];
            var m := Merged(n.kids[i - 1], n.segs[i - 1], n.kids[i], h - 1, LastEnd(sa, p), FirstStart(sb, q));
            Fix(n, h, p, q, i, d) == (Node(sa + sb, ka + [m] + kb, n.gap), [|ka|] + Shift(d, |n.kids[i - 1].segs| + 1))
  {
    hide Merged;
  }

  lemma FixMergesLeft(n: Node, h: nat, p: int, q: int, i: nat, d: Coord)
    requires Lacking(n, h, p, q, i) && At(n.kids[i], h - 1, d) && i > 0 && |n.kids[i - 1].segs| < MIN_DEGREE
    requires i == |n.segs| || |n.kids[i + 1].segs| < MIN_DEGREE
    requires forall j :: 0 <= j < |n.kids| ==> n.kids[j].segs != []
    ensures var (x, e) := Fix(n, h, p, q, i, d); At(n, h, [i] + d) && Mended(n, h, p, q, [i] + d, x, e)
  {
    hide Sound, Prefix, Suffix, Flatten, Merged, SoundPrefix, SoundSuffix, Mended, Fix;
    FixIsMerge(n, h, p, q, i, d);
    var g, x, l, y := h - 1, n.kids[i], n.kids[i - 1], n.segs[i - 1];
    var sa, ka, sb, kb := n.segs[..i - 1], n.kids[..i - 1], n.segs[i..], n.kids[i + 1..];
    PairAt(n, i - 1, p, q);
    SoundPrefixOneMore(sa, ka, y, l, g, p);
    assert Full(l, g, LastEnd(sa, p), y.start);
    PairMerged(n, h, p, q, sa, ka, sb, kb, l, y, x, true, d);
  }

  lemma FixMergesRight(n: Node, h: nat, p: int, q: int, d: Coord)
    requires Lacking(n, h, p, q, 0) && At(n.kids[0], h - 1, d) && |n.kids[1].segs| < MIN_DEGREE
    requires forall j :: 0 <= j < |n.kids| ==> n.kids[j].segs != []
    ensures var (x, e) := Fix(n, h, p, q, 0, d); At(n, h, [0] + d) && Mended(n, h, p, q, [0] + d, x, e)
  {
    hide Sound, Prefix, Suffix, Flatten, Merged, SoundPrefix, SoundSuffix, Mended;
    var g, x, r, y := h - 1, n.kids[0], n.kids[1], n.segs[0];
    var sb, kb := n.segs[1..], n.kids[2..];
    PairAt(n, 0, p, q);
    SoundSuffixOneMore(y, r, sb, kb, g, q);
    assert Full(r, g, y.end, FirstStart(sb, q));
    assert n.segs[..0] == [] && n.kids[..0] == [];
    PairMerged(n, h, p, q, [], [], sb, kb, x, y, r, false, d);
    var m := Merged(x, y, r, g, p, FirstStart(sb, q));
    assert [] + sb == n.segs[1..] && [] + [m] + kb == [m] + n.kids[2..];
  }

  lemma KidsHaveSegments(n: Node, h: nat, p: int, q: int, i: nat)
    requires Lacking(n, h, p, q, i)
    ensures forall j :: 0 <= j < |n.kids| ==> n.kids[j].segs != []
  {
    forall j | 0 <= j < |n.kids| ensures n.kids[j].segs != [] {
      if j < i { assert InPrefix(n.segs[..i], n.kids[..i], h - 1, p, j); }
      if j > i { assert InSuffix(n.segs[i..], n.kids[i + 1..], h - 1, q, j - i - 1); }
    }
  }

  lemma FixMends(n: Node, h: nat, p: int, q: int, i: nat, d: Coord)
    requires Lacking(n, h, p, q, i) && At(n.kids[i], h - 1, d)
    requires forall j :: 0 <= j < |n.kids| ==> n.kids[j].segs != []
    ensures var (x, e) := Fix(n, h, p, q, i, d); At(n, h, [i] + d) && Mended(n, h, p, q, [i] + d, x, e)
  {
    hide Sound, SoundPrefix, SoundSuffix, Flatten, Mended, Fix;
    if i > 0 && |n.kids[i - 1].segs| >= MIN_DEGREE { FixBorrowsLeft(n, h, p, q, i, d); }
    else if i < |n.segs| && |n.kids[i + 1].segs| >= MIN_DEGREE { FixBorrowsRight(n, h, p, q, i, d); }
    else if i > 0 { FixMergesLeft(n, h, p, q, i, d); }
    else { FixMergesRight(n, h, p, q, d); }
  }

  // ----- the whole way up -----

  /** rebalanceAfterRemove below n, whose leaf at c may have one segment less than
      enough: the same segments, the same gap. */
  function Mend(n: Node, h: nat, p: int, q: int, c: Coord): (r: (Node, Coord))
    requires At(n, h, c) && Along(n, h, p, q, c) && LeafExact(n, h, p, q, c)
    requires h > 0 ==> n.segs != [] && LeafSize(n, h, c) >= MIN_DEGREE - 2
    ensures Mended(n, h, p, q, c, r.0, r.1) && (h == 0 ==> r == (n, c))
    decreases h
  {
    if h == 0 then (n, c)
    else
      var i := c[0];
      var lo, hi := Low(n.segs, i, p), High(n.segs, i, q);
      var (x, d) := Mend(n.kids[i], h - 1, lo, hi, c[1..]);
      var n2 := n.(kids := n.kids[i := x]);
      assert h > 1 ==> |n.kids[i].segs| >= MIN_DEGREE - 1;
      assert h == 1 ==> |n.kids[i].segs| == LeafSize(n, h, c);
      KidMended(n, h, p, q, c, x, d);
      if |x.segs| >= MIN_DEGREE - 1 then (n2, [i] + d)
      else
        KidsHaveSegments(n2, h, p, q, i);
        FixMends(n2, h, p, q, i, d);
        Fix(n2, h, p, q, i, d)
  }

  /** After the kid has been mended: all is well, or it lacks one segment. */
  lemma KidMended(n: Node, h: nat, p: int, q: int, c: Coord, x: Node, d: Coord)
    requires h > 0 && At(n, h, c) && Along(n, h, p, q, c) && LeafExact(n, h, p, q, c) && n.segs != []
    requires Mended(n.kids[c[0]], h - 1, Low(n.segs, c[0], p), High(n.segs, c[0], q), c[1..], x, d)
    requires |x.segs| >= MIN_DEGREE - 2
    ensures var n2 := n.(kids := n.kids[c[0] := x]);
            && At(n2, h, [c[0]] + d) && Flatten(n2, h) == Flatten(n, h) && Before(n2, h, [c[0]] + d) == Before(n, h, c)
            && (if |x.segs| >= MIN_DEGREE - 1 then Sound(n2, h, p, q) else Lacking(n2, h, p, q, c[0]))
  {
    hide Prefix, Suffix, SoundPrefix, SoundSuffix, SoundKids, KidsGap;
    var i := c[0];
    var n2 := n.(kids := n.kids[i := x]);
    ExactAlong(n, h, p, q, c);
    KidFlatten(n, h, i, x);
    assert n2.kids[..i] == n.kids[..i] && n2.kids[i + 1..] == n.kids[i + 1..];
    assert ([i] + d)[1..] == d;
    assert n2.segs == n.segs[..i] + n.segs[i..] && n2.kids == n.kids[..i] + [x] + n.kids[i + 1..];
    SoundAround(n.segs[..i], n.kids[..i], x, n.segs[i..], n.kids[i + 1..], h - 1, p, q);
  }
}
