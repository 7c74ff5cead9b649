/** The nodes of the B-tree, the list of segments a tree holds, and the invariant
    of its nodes. */
module SegmentNode {
  import opened SegmentList

  const MIN_DEGREE := 3
  const MAX_DEGREE := 2 * MIN_DEGREE

  /** A leaf has no kids; any other node has one more kid than segments. Gap is
      the cached length of the longest gap in the node. */
  datatype Node = Node(segs: seq<Segment>, kids: seq<Node>, gap: int)

  /** The segments of a node of height h, in order. */
  function Flatten(n: Node, h: nat): seq<Segment>
    decreases h, 1, 0
  {
    if h == 0 then n.segs else Weave(n.segs, n.kids, h - 1)
  }

  /** Kids of height h, with the segments that separate them. */
  function Weave(segs: seq<Segment>, kids: seq<Node>, h: nat): seq<Segment>
    decreases h, 2, |segs|
  {
    if |kids| != |segs| + 1 then []
    else if segs == [] then Flatten(kids[0], h)
    else Flatten(kids[0], h) + [segs[0]] + Weave(segs[1..], kids[1..], h)
  }

  /** The bounds of kid i: the neighbouring segments, or the node's own bounds. */
  function Low(segs: seq<Segment>, i: nat, p: int): int
    requires i <= |segs|
  {
    if i == 0 then p else segs[i - 1].end
  }

  function High(segs: seq<Segment>, i: nat, q: int): int
    requires i <= |segs|
  {
    if i == |segs| then q else segs[i].start
  }

  /** A node of height h between p and q: not too many segments, kids that are
      sound and have enough, and a gap that is the longest there is. */
  ghost predicate Sound(n: Node, h: nat, p: int, q: int)
    decreases h, 0
  {
    && |n.segs| < MAX_DEGREE
    && (if h == 0 then n.kids == [] else |n.kids| == |n.segs| + 1 && SoundKids(n.segs, n.kids, h - 1, p, q))
    && n.gap == MaxGap(p, Flatten(n, h), q)
  }

  /** A sound node with at least the segments every node but the root needs. */
  ghost predicate Full(n: Node, h: nat, p: int, q: int)
    decreases h, 1
  {
    |n.segs| >= MIN_DEGREE - 1 && Sound(n, h, p, q)
  }

  ghost predicate SoundKids(segs: seq<Segment>, kids: seq<Node>, h: nat, p: int, q: int)
    decreases h, 3
  {
    |kids| == |segs| + 1 && forall i :: 0 <= i < |kids| ==> SoundKid(segs, kids, h, p, q, i)
  }

  /** Kid i between its neighbouring segments. */
  ghost predicate SoundKid(segs: seq<Segment>, kids: seq<Node>, h: nat, p: int, q: int, i: nat)
    requires i < |kids| == |segs| + 1
    decreases h, 2
  {
    Full(kids[i], h, Low(segs, i, p), High(segs, i, q))
  }

  lemma FullGap(n: Node, h: nat, p: int, q: int)
    requires Full(n, h, p, q)
    ensures Sound(n, h, p, q) && n.gap == MaxGap(p, Flatten(n, h), q)
  {
  }

  /** All leaves at the same depth, and as many kids as there must be. */
  ghost predicate Shaped(n: Node, h: nat)
    decreases h
  {
    if h == 0 then n.kids == []
    else |n.kids| == |n.segs| + 1 && forall i :: 0 <= i < |n.kids| ==> Shaped(n.kids[i], h - 1)
  }

  lemma {:induction false} SoundIsShaped(n: Node, h: nat, p: int, q: int)
    requires Sound(n, h, p, q)
    ensures Shaped(n, h)
    decreases h
  {
    if h > 0 {
      forall i | 0 <= i < |n.kids| ensures Shaped(n.kids[i], h - 1) {
        assert SoundKid(n.segs, n.kids, h - 1, p, q, i);
        FullGap(n.kids[i], h - 1, Low(n.segs, i, p), High(n.segs, i, q));
        SoundIsShaped(n.kids[i], h - 1, Low(n.segs, i, p), High(n.segs, i, q));
      }
    }
  }

  // ----- the kids around one kid -----

  /** Kids with the segments that follow them, and segments with the kids that do. */
  function Prefix(segs: seq<Segment>, kids: seq<Node>, h: nat): seq<Segment>
    requires |kids| == |segs|
    decreases |segs|
  {
    if segs == [] then [] else Flatten(kids[0], h) + [segs[0]] + Prefix(segs[1..], kids[1..], h)
  }

  function Suffix(segs: seq<Segment>, kids: seq<Node>, h: nat): seq<Segment>
    requires |kids| == |segs|
    decreases |segs|
  {
    if segs == [] then [] else [segs[0]] + Flatten(kids[0], h) + Suffix(segs[1..], kids[1..], h)
  }

  lemma {:induction false} PrefixJoin(sa: seq<Segment>, ka: seq<Node>, sb: seq<Segment>, kb: seq<Node>, h: nat)
    requires |ka| == |sa| && |kb| == |sb|
    ensures Prefix(sa + sb, ka + kb, h) == Prefix(sa, ka, h) + Prefix(sb, kb, h)
    decreases |sa|
  {
    var s, ks := sa + sb, ka + kb;
    if sa == [] {
      assert s == sb && ks == kb;
    } else {
      assert s[1..] == sa[1..] + sb && ks[1..] == ka[1..] + kb;
      PrefixJoin(sa[1..], ka[1..], sb, kb, h);
    }
  }

  lemma PrefixOne(k: Segment, x: Node, h: nat)
    ensures Prefix([k], [x], h) == Flatten(x, h) + [k]
  {
    assert Prefix([k][1..], [x][1..], h) == [];
  }

  /** One more kid and the segment after it. */
  lemma PrefixStep(segs: seq<Segment>, kids: seq<Node>, i: nat, h: nat)
    requires i < |segs| && i < |kids|
    ensures Prefix(segs[..i + 1], kids[..i + 1], h) == Prefix(segs[..i], kids[..i], h) + Flatten(kids[i], h) + [segs[i]]
  {
    assert segs[..i + 1] == segs[..i] + [segs[i]] && kids[..i + 1] == kids[..i] + [kids[i]];
    PrefixJoin(segs[..i], kids[..i], [segs[i]], [kids[i]], h);
    PrefixOne(segs[i], kids[i], h);
  }

  lemma {:induction false} WeaveSuffix(segs: seq<Segment>, x: Node, kids: seq<Node>, h: nat)
    requires |kids| == |segs|
    ensures Weave(segs, [x] + kids, h) == Flatten(x, h) + Suffix(segs, kids, h)
    decreases |segs|
  {
    assert ([x] + kids)[1..] == kids;
    if segs != [] {
      assert kids == [kids[0]] + kids[1..];
      WeaveSuffix(segs[1..], kids[0], kids[1..], h);
    }
  }

  /** A list of kids, taken apart around one of them. */
  lemma {:induction false} WeaveAround(sa: seq<Segment>, ka: seq<Node>, x: Node, sb: seq<Segment>, kb: seq<Node>,
                                       h: nat)
    requires |ka| == |sa| && |kb| == |sb|
    ensures Weave(sa + sb, ka + [x] + kb, h) == Prefix(sa, ka, h) + Flatten(x, h) + Suffix(sb, kb, h)
    decreases |sa|
  {
    var s, ks := sa + sb, ka + [x] + kb;
    if sa == [] {
      assert s == sb && ks == [x] + kb;
      WeaveSuffix(sb, x, kb, h);
    } else {
      assert s[1..] == sa[1..] + sb && ks[1..] == ka[1..] + [x] + kb;
      WeaveAround(sa[1..], ka[1..], x, sb, kb, h);
    }
  }

  function LastEnd(segs: seq<Segment>, p: int): int { if segs == [] then p else segs[|segs| - 1].end }

  function FirstStart(segs: seq<Segment>, q: int): int { if segs == [] then q else segs[0].start }

  ghost predicate InPrefix(segs: seq<Segment>, kids: seq<Node>, h: nat, p: int, i: nat)
    requires i < |kids| == |segs|
  {
    Full(kids[i], h, Low(segs, i, p), segs[i].start)
  }

  ghost predicate SoundPrefix(segs: seq<Segment>, kids: seq<Node>, h: nat, p: int) {
    |kids| == |segs| && forall i :: 0 <= i < |kids| ==> InPrefix(segs, kids, h, p, i)
  }

  ghost predicate InSuffix(segs: seq<Segment>, kids: seq<Node>, h: nat, q: int, i: nat)
    requires i < |kids| == |segs|
  {
    Full(kids[i], h, segs[i].end, High(segs, i + 1, q))
  }

  ghost predicate SoundSuffix(segs: seq<Segment>, kids: seq<Node>, h: nat, q: int) {
    |kids| == |segs| && forall i :: 0 <= i < |kids| ==> InSuffix(segs, kids, h, q, i)
  }

  lemma SoundAround(sa: seq<Segment>, ka: seq<Node>, x: Node, sb: seq<Segment>, kb: seq<Node>, h: nat, p: int, q: int)
    requires |ka| == |sa| && |kb| == |sb|
    ensures SoundKids(sa + sb, ka + [x] + kb, h, p, q) <==>
            SoundPrefix(sa, ka, h, p) && Full(x, h, LastEnd(sa, p), FirstStart(sb, q)) && SoundSuffix(sb, kb, h, q)
  {
    hide Full;
    var s, ks, i := sa + sb, ka + [x] + kb, |ka|;
    forall j | 0 <= j < i ensures SoundKid(s, ks, h, p, q, j) <==> InPrefix(sa, ka, h, p, j) {}
    assert SoundKid(s, ks, h, p, q, i) <==> Full(x, h, LastEnd(sa, p), FirstStart(sb, q));
    forall j | 0 <= j < |kb| ensures SoundKid(s, ks, h, p, q, j + i + 1) <==> InSuffix(sb, kb, h, q, j) {}
    hide SoundKid, InPrefix, InSuffix;
    if SoundPrefix(sa, ka, h, p) && Full(x, h, LastEnd(sa, p), FirstStart(sb, q)) && SoundSuffix(sb, kb, h, q) {
      forall j | 0 <= j < |ks| ensures SoundKid(s, ks, h, p, q, j) {
        if j < i { assert InPrefix(sa, ka, h, p, j); }
        if j > i { assert InSuffix(sb, kb, h, q, j - i - 1); }
      }
    }
  }

  lemma SoundPrefixOneMore(sa: seq<Segment>, ka: seq<Node>, k: Segment, x: Node, h: nat, p: int)
    requires |ka| == |sa|
    ensures SoundPrefix(sa + [k], ka + [x], h, p) <==> SoundPrefix(sa, ka, h, p) && Full(x, h, LastEnd(sa, p), k.start)
  {
    hide Full;
    var s, ks, i := sa + [k], ka + [x], |ka|;
    forall j | 0 <= j < i ensures InPrefix(s, ks, h, p, j) <==> InPrefix(sa, ka, h, p, j) {}
    assert InPrefix(s, ks, h, p, i) <==> Full(x, h, LastEnd(sa, p), k.start);
    hide InPrefix;
    if SoundPrefix(sa, ka, h, p) && Full(x, h, LastEnd(sa, p), k.start) {
      forall j | 0 <= j < |ks| ensures InPrefix(s, ks, h, p, j) { if j < i { assert InPrefix(sa, ka, h, p, j); } }
    }
  }

  // ----- two nodes and the segment between them -----

  /** Two nodes with a segment between them hold what one node with all of their
      segments and kids holds. */
  lemma FlattenJoin(a: Node, k: Segment, b: Node, n: Node, h: nat)
    requires h > 0 ==> |a.kids| == |a.segs| + 1 && |b.kids| == |b.segs| + 1
    requires n.segs == a.segs + [k] + b.segs && n.kids == a.kids + b.kids
    ensures Flatten(n, h) == Flatten(a, h) + [k] + Flatten(b, h)
  {
    if h > 0 { WeaveJoin(a.segs, a.kids, k, b.segs, b.kids, h - 1); }
  }

  lemma {:induction false} WeaveJoin(sa: seq<Segment>, ka: seq<Node>, k: Segment, sb: seq<Segment>, kb: seq<Node>,
                                     h: nat)
    requires |ka| == |sa| + 1 && |kb| == |sb| + 1
    ensures Weave(sa + [k] + sb, ka + kb, h) == Weave(sa, ka, h) + [k] + Weave(sb, kb, h)
    decreases |sa|
  {
    var s, ks := sa + [k] + sb, ka + kb;
    if sa == [] {
      assert s[1..] == sb && ks[1..] == kb;
    } else {
      assert s[1..] == sa[1..] + [k] + sb && ks[1..] == ka[1..] + kb;
      WeaveJoin(sa[1..], ka[1..], k, sb, kb, h);
    }
  }

  lemma SoundKidsJoin(sa: seq<Segment>, ka: seq<Node>, k: Segment, sb: seq<Segment>, kb: seq<Node>, h: nat, p: int,
                      q: int)
    requires |ka| == |sa| + 1 && |kb| == |sb| + 1
    ensures SoundKids(sa + [k] + sb, ka + kb, h, p, q) <==>
              SoundKids(sa, ka, h, p, k.start) && SoundKids(sb, kb, h, k.end, q)
  {
    hide Full;
    var s, ks, i := sa + [k] + sb, ka + kb, |ka|;
    forall j | 0 <= j < i ensures SoundKid(s, ks, h, p, q, j) <==> SoundKid(sa, ka, h, p, k.start, j) {}
    forall j | 0 <= j < |kb| ensures SoundKid(s, ks, h, p, q, j + i) <==> SoundKid(sb, kb, h, k.end, q, j) {}
    hide SoundKid;
    if SoundKids(sa, ka, h, p, k.start) && SoundKids(sb, kb, h, k.end, q) {
      forall j | 0 <= j < |ks| ensures SoundKid(s, ks, h, p, q, j) {
        if j < i { assert SoundKid(sa, ka, h, p, k.start, j); } else { assert SoundKid(sb, kb, h, k.end, q, j - i); }
      }
    }
  }

  // ----- computing a gap -----

  function KidsGap(kids: seq<Node>): int
    requires kids != []
  {
    if |kids| == 1 then kids[0].gap else Max(kids[0].gap, KidsGap(kids[1..]))
  }

  /** A node with its gap computed from what is in it. */
  function Fresh(segs: seq<Segment>, kids: seq<Node>, h: nat, p: int, q: int): Node {
    Node(segs, kids, if h == 0 || kids == [] then MaxGap(p, segs, q) else KidsGap(kids))
  }

  lemma {:induction false} KidsGapIsMaxGap(segs: seq<Segment>, kids: seq<Node>, h: nat, p: int, q: int)
    requires SoundKids(segs, kids, h, p, q)
    ensures KidsGap(kids) == MaxGap(p, Weave(segs, kids, h), q)
    decreases |segs|
  {
    assert SoundKid(segs, kids, h, p, q, 0);
    FullGap(kids[0], h, p, High(segs, 0, q));
    if segs != [] {
      var k, x, s, ks := segs[0], kids[0], segs[1..], kids[1..];
      assert segs == [] + [k] + s && kids == [x] + ks;
      SoundKidsJoin([], [x], k, s, ks, h, p, q);
      KidsGapIsMaxGap(s, ks, h, k.end, q);
      MaxGapJoin(p, Flatten(x, h), k, Weave(s, ks, h), q);
    }
  }

  /** A fresh node is sound when its kids are. */
  lemma FreshIsSound(segs: seq<Segment>, kids: seq<Node>, h: nat, p: int, q: int)
    requires |segs| < MAX_DEGREE && (if h == 0 then kids == [] else SoundKids(segs, kids, h - 1, p, q))
    ensures Sound(Fresh(segs, kids, h, p, q), h, p, q)
  {
    if h > 0 { KidsGapIsMaxGap(segs, kids, h - 1, p, q); }
  }
}
