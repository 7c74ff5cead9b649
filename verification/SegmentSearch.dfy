/** Finding the nearest gap of some length with the help of the cached gaps. */
module SegmentSearch {
  import opened SegmentList
  import opened SegmentNode
  import opened SegmentInsert
  import opened SegmentGaps
  import opened SegmentTree

  /** How many segments come before kid i. */
  ghost function Start(n: Node, h: nat, i: nat): nat
    requires h > 0 && i < |n.kids| == |n.segs| + 1
  {
    |Prefix(n.segs[..i], n.kids[..i], h - 1)|
  }

  /** The gaps of kid i are the gaps of the node from Start on. */
  lemma KidGaps(n: Node, h: nat, p: int, q: int, i: nat)
    requires h > 0 && i < |n.kids| == |n.segs| + 1
    ensures var l, m, a := Flatten(n, h), Flatten(n.kids[i], h - 1), Start(n, h, i);
            && a + |m| <= |l| && (i == 0 ==> a == 0) && (i == |n.segs| ==> a + |m| == |l|)
            && (forall j :: 0 <= j <= |m| ==>
                GapLength(l, a + j, p, q) == GapLength(m, j, Low(n.segs, i, p), High(n.segs, i, q)))
  {
    hide Prefix, Suffix, Weave;
    var sa, ka, sb, kb, x := n.segs[..i], n.kids[..i], n.segs[i..], n.kids[i + 1..], n.kids[i];
    var a, m, b := Prefix(sa, ka, h - 1), Flatten(x, h - 1), Suffix(sb, kb, h - 1);
    KidFlatten(n, h, i, x);
    PrefixEnd(sa, ka, h - 1);
    SuffixStart(sb, kb, h - 1);
    forall j | 0 <= j <= |m|
      ensures GapLength(Flatten(n, h), |a| + j, p, q) == GapLength(m, j, Low(n.segs, i, p), High(n.segs, i, q))
    {
      GapInMiddle(a, m, b, j, p, q, Low(n.segs, i, p), High(n.segs, i, q));
    }
  }

  lemma NextStart(n: Node, h: nat, i: nat)
    requires h > 0 && i < |n.segs| && |n.kids| == |n.segs| + 1
    ensures Start(n, h, i + 1) == Start(n, h, i) + |Flatten(n.kids[i], h - 1)| + 1
  {
    hide Flatten;
    PrefixStep(n.segs, n.kids, i, h - 1);
  }

  /** No gap from a up to b, b excluded, is long enough. */
  ghost predicate NoneIn(l: seq<Segment>, p: int, q: int, min: int, a: int, b: int) {
    forall j :: 0 <= j <= |l| && a <= j < b ==> GapLength(l, j, p, q) < min
  }

  /** The gap at c is long enough, and none between a and it is. */
  ghost predicate FirstFrom(n: Node, h: nat, p: int, q: int, min: int, a: int, c: Coord) {
    && At(n, h, c) && |Before(n, h, c)| <= |Flatten(n, h)| && a <= |Before(n, h, c)|
    && GapLength(Flatten(n, h), |Before(n, h, c)|, p, q) >= min
    && NoneIn(Flatten(n, h), p, q, min, a, |Before(n, h, c)|)
  }

  /** The gap at c is long enough, and none between it and b is. */
  ghost predicate LastUpTo(n: Node, h: nat, p: int, q: int, min: int, b: int, c: Coord) {
    && At(n, h, c) && |Before(n, h, c)| <= |Flatten(n, h)| && |Before(n, h, c)| < b
    && GapLength(Flatten(n, h), |Before(n, h, c)|, p, q) >= min
    && NoneIn(Flatten(n, h), p, q, min, |Before(n, h, c)| + 1, b)
  }

  /** What holds of the gaps of a kid holds of those of the node. */
  lemma FirstInKid(n: Node, h: nat, p: int, q: int, min: int, i: nat, k: nat, c: Coord)
    requires h > 0 && i < |n.kids| == |n.segs| + 1 && c != []
    requires FirstFrom(n.kids[i], h - 1, Low(n.segs, i, p), High(n.segs, i, q), min, k, c)
    ensures FirstFrom(n, h, p, q, min, Start(n, h, i) + k, [i] + c)
  {
    hide Flatten, Prefix;
    KidGaps(n, h, p, q, i);
    assert ([i] + c)[1..] == c;
    var l, m, a := Flatten(n, h), Flatten(n.kids[i], h - 1), Start(n, h, i);
    var lo, hi := Low(n.segs, i, p), High(n.segs, i, q);
    forall j | 0 <= j <= |l| && a + k <= j < |Before(n, h, [i] + c)| ensures GapLength(l, j, p, q) < min {
      assert GapLength(l, a + (j - a), p, q) == GapLength(m, j - a, lo, hi);
    }
  }

  lemma NoneInKid(n: Node, h: nat, p: int, q: int, min: int, i: nat, k: nat)
    requires h > 0 && i < |n.kids| == |n.segs| + 1
    requires NoneIn(Flatten(n.kids[i], h - 1), Low(n.segs, i, p), High(n.segs, i, q), min,
                    k, |Flatten(n.kids[i], h - 1)| + 1)
    ensures NoneIn(Flatten(n, h), p, q, min, Start(n, h, i) + k, Start(n, h, i) + |Flatten(n.kids[i], h - 1)| + 1)
  {
    hide Flatten, Prefix;
    KidGaps(n, h, p, q, i);
    var l, m, a := Flatten(n, h), Flatten(n.kids[i], h - 1), Start(n, h, i);
    forall j | 0 <= j <= |l| && a + k <= j < a + |m| + 1 ensures GapLength(l, j, p, q) < min {
      assert GapLength(l, a + (j - a), p, q) == GapLength(m, j - a, Low(n.segs, i, p), High(n.segs, i, q));
    }
  }

  /** The cached gap tells whether there is a gap that is long enough. */
  lemma NoneIffSmall(l: seq<Segment>, p: int, q: int, min: int)
    ensures NoneIn(l, p, q, min, 0, |l| + 1) <==> MaxGap(p, l, q) < min
  {
    MaxGapIsMax(l, p, q);
  }

  /** Start, or the end behind the last kid. */
  ghost function StartOrEnd(n: Node, h: nat, i: nat): nat
    requires h > 0 && |n.kids| == |n.segs| + 1
  {
    if i <= |n.segs| then Start(n, h, i) else |Flatten(n, h)| + 1
  }

  lemma NextStartOrEnd(n: Node, h: nat, p: int, q: int, i: nat)
    requires h > 0 && i <= |n.segs| && |n.kids| == |n.segs| + 1
    ensures StartOrEnd(n, h, i + 1) == Start(n, h, i) + |Flatten(n.kids[i], h - 1)| + 1
  {
    KidGaps(n, h, p, q, i);
    if i < |n.segs| { NextStart(n, h, i); }
  }

  method FirstInLeaf(n: Node, p: int, q: int, from: nat, min: int) returns (ok: bool, c: Coord)
    ensures ok ==> FirstFrom(n, 0, p, q, min, from, c)
    ensures !ok ==> NoneIn(n.segs, p, q, min, from, |n.segs| + 1)
  {
    var i: nat := from;
    while i <= |n.segs|
      invariant from <= i && NoneIn(n.segs, p, q, min, from, i)
    {
      if GapLength(n.segs, i, p, q) >= min { return true, [i]; }
      i := i + 1;
    }
    return false, [];
  }

  method FirstInKids(n: Node, h: nat, p: int, q: int, from: nat, min: int) returns (ok: bool, c: Coord)
    requires h > 0 && Sound(n, h, p, q) && from <= |n.segs| + 1
    ensures ok ==> FirstFrom(n, h, p, q, min, StartOrEnd(n, h, from), c)
    ensures !ok ==> NoneIn(Flatten(n, h), p, q, min, StartOrEnd(n, h, from), |Flatten(n, h)| + 1)
    decreases h, 0
  {
    hide SoundKids, Flatten, Start, Before;
    var i: nat := from;
    c := [];
    while i <= |n.segs|
      invariant from <= i <= |n.segs| + 1 && StartOrEnd(n, h, from) <= StartOrEnd(n, h, i)
      invariant NoneIn(Flatten(n, h), p, q, min, StartOrEnd(n, h, from), StartOrEnd(n, h, i))
    {
      KidIsSound(n, h, p, q, i);
      ok, c := SearchFirst(n.kids[i], h - 1, Low(n.segs, i, p), High(n.segs, i, q), min);
      if ok {
        FirstInKid(n, h, p, q, min, i, 0, c);
        return true, [i] + c;
      }
      NoneInKid(n, h, p, q, min, i, 0);
      NextStartOrEnd(n, h, p, q, i);
      i := i + 1;
    }
    return false, [];
  }

  /** searchFirstLargeEnoughGap: the first gap below n that is long enough. The
      source's panic for a wrong cached gap is never reached. */
  method SearchFirst(n: Node, h: nat, p: int, q: int, min: int) returns (ok: bool, c: Coord)
    requires Sound(n, h, p, q)
    ensures ok ==> FirstFrom(n, h, p, q, min, 0, c)
    ensures !ok ==> NoneIn(Flatten(n, h), p, q, min, 0, |Flatten(n, h)| + 1)
    decreases h, 1
  {
    NoneIffSmall(Flatten(n, h), p, q, min);
    if n.gap < min { return false, []; }
    if h > 0 {
      KidGaps(n, h, p, q, 0);
      ok, c := FirstInKids(n, h, p, q, 0, min);
    } else {
      ok, c := FirstInLeaf(n, p, q, 0, min);
    }
    if !ok { assert false; }
  }

  lemma LastInKid(n: Node, h: nat, p: int, q: int, min: int, i: nat, k: nat, c: Coord)
    requires h > 0 && i < |n.kids| == |n.segs| + 1 && c != [] && k <= |Flatten(n.kids[i], h - 1)| + 1
    requires LastUpTo(n.kids[i], h - 1, Low(n.segs, i, p), High(n.segs, i, q), min, k, c)
    ensures LastUpTo(n, h, p, q, min, Start(n, h, i) + k, [i] + c)
  {
    hide Flatten, Prefix;
    KidGaps(n, h, p, q, i);
    assert ([i] + c)[1..] == c;
    var l, m, a := Flatten(n, h), Flatten(n.kids[i], h - 1), Start(n, h, i);
    var lo, hi := Low(n.segs, i, p), High(n.segs, i, q);
    forall j | 0 <= j <= |l| && |Before(n, h, [i] + c)| + 1 <= j < a + k ensures GapLength(l, j, p, q) < min {
      assert GapLength(l, a + (j - a), p, q) == GapLength(m, j - a, lo, hi);
    }
  }

  lemma NoneBelowInKid(n: Node, h: nat, p: int, q: int, min: int, i: nat, k: nat)
    requires h > 0 && i < |n.kids| == |n.segs| + 1 && k <= |Flatten(n.kids[i], h - 1)| + 1
    requires NoneIn(Flatten(n.kids[i], h - 1), Low(n.segs, i, p), High(n.segs, i, q), min, 0, k)
    ensures NoneIn(Flatten(n, h), p, q, min, Start(n, h, i), Start(n, h, i) + k)
  {
    hide Flatten, Prefix;
    KidGaps(n, h, p, q, i);
    var l, m, a := Flatten(n, h), Flatten(n.kids[i], h - 1), Start(n, h, i);
    forall j | 0 <= j <= |l| && a <= j < a + k ensures GapLength(l, j, p, q) < min {
      assert GapLength(l, a + (j - a), p, q) == GapLength(m, j - a, Low(n.segs, i, p), High(n.segs, i, q));
    }
  }

  method LastInLeaf(n: Node, p: int, q: int, to: nat, min: int) returns (ok: bool, c: Coord)
    requires to <= |n.segs| + 1
    ensures ok ==> LastUpTo(n, 0, p, q, min, to, c)
    ensures !ok ==> NoneIn(n.segs, p, q, min, 0, to)
  {
    var i: nat := to;
    while i > 0
      invariant i <= to && NoneIn(n.segs, p, q, min, i, to)
    {
      i := i - 1;
      if GapLength(n.segs, i, p, q) >= min { return true, [i]; }
    }
    return false, [];
  }

  method LastInKids(n: Node, h: nat, p: int, q: int, to: nat, min: int) returns (ok: bool, c: Coord)
    requires h > 0 && Sound(n, h, p, q) && to <= |n.segs| + 1
    ensures ok ==> LastUpTo(n, h, p, q, min, StartOrEnd(n, h, to), c)
    ensures !ok ==> NoneIn(Flatten(n, h), p, q, min, 0, StartOrEnd(n, h, to))
    decreases h, 0
  {
    hide SoundKids, Flatten, Start, Before;
    var i: nat := to;
    c := [];
    while i > 0
      invariant i <= to && StartOrEnd(n, h, i) <= StartOrEnd(n, h, to)
      invariant NoneIn(Flatten(n, h), p, q, min, StartOrEnd(n, h, i), StartOrEnd(n, h, to))
    {
      i := i - 1;
      NextStartOrEnd(n, h, p, q, i);
      KidIsSound(n, h, p, q, i);
      ok, c := SearchLast(n.kids[i], h - 1, Low(n.segs, i, p), High(n.segs, i, q), min);
      if ok {
        LastInKid(n, h, p, q, min, i, |Flatten(n.kids[i], h - 1)| + 1, c);
        return true, [i] + c;
      }
      NoneBelowInKid(n, h, p, q, min, i, |Flatten(n.kids[i], h - 1)| + 1);
    }
    KidGaps(n, h, p, q, 0);
    return false, [];
  }

  /** searchLastLargeEnoughGap. */
  method SearchLast(n: Node, h: nat, p: int, q: int, min: int) returns (ok: bool, c: Coord)
    requires Sound(n, h, p, q)
    ensures ok ==> LastUpTo(n, h, p, q, min, |Flatten(n, h)| + 1, c)
    ensures !ok ==> NoneIn(Flatten(n, h), p, q, min, 0, |Flatten(n, h)| + 1)
    decreases h, 1
  {
    NoneIffSmall(Flatten(n, h), p, q, min);
    if n.gap < min { return false, []; }
    if h > 0 {
      ok, c := LastInKids(n, h, p, q, |n.segs| + 1, min);
    } else {
      ok, c := LastInLeaf(n, p, q, |n.segs| + 1, min);
    }
    if !ok { assert false; }
  }

  /** NextLargeEnoughGap: the nearest later gap that is long enough. A node whose
      cached gap is too small is left at once. */
  method NextLargeEnough(n: Node, h: nat, p: int, q: int, c: Coord, min: int) returns (ok: bool, d: Coord)
    requires Sound(n, h, p, q) && At(n, h, c)
    ensures ok ==> FirstFrom(n, h, p, q, min, |Before(n, h, c)| + 1, d)
    ensures !ok ==> NoneIn(Flatten(n, h), p, q, min, |Before(n, h, c)| + 1, |Flatten(n, h)| + 1)
    decreases h
  {
    hide SoundKids, Prefix, MaxGap, Weave;
    NoneIffSmall(Flatten(n, h), p, q, min);
    var i := c[0];
    if h == 0 {
      if n.gap < min { return false, []; }
      ok, d := FirstInLeaf(n, p, q, i + 1, min);
      return;
    }
    KidIsSound(n, h, p, q, i);
    ok, d := NextLargeEnough(n.kids[i], h - 1, Low(n.segs, i, p), High(n.segs, i, q), c[1..], min);
    ghost var k := |Before(n.kids[i], h - 1, c[1..])| + 1;
    assert |Before(n, h, c)| + 1 == Start(n, h, i) + k;
    if ok {
      FirstInKid(n, h, p, q, min, i, k, d);
      return true, [i] + d;
    }
    NoneInKid(n, h, p, q, min, i, k);
    NextStartOrEnd(n, h, p, q, i);
    BeforeIsPrefix(n.kids[i], h - 1, c[1..]);
    if n.gap < min { return false, []; }
    ok, d := FirstInKids(n, h, p, q, i + 1, min);
  }

  /** PrevLargeEnoughGap: the nearest earlier gap that is long enough. */
  method PrevLargeEnough(n: Node, h: nat, p: int, q: int, c: Coord, min: int) returns (ok: bool, d: Coord)
    requires Sound(n, h, p, q) && At(n, h, c)
    ensures ok ==> LastUpTo(n, h, p, q, min, |Before(n, h, c)|, d)
    ensures !ok ==> NoneIn(Flatten(n, h), p, q, min, 0, |Before(n, h, c)|)
    decreases h
  {
    hide SoundKids, Prefix, MaxGap, Weave;
    NoneIffSmall(Flatten(n, h), p, q, min);
    BeforeIsPrefix(n, h, c);
    var i := c[0];
    if h == 0 {
      if n.gap < min { return false, []; }
      ok, d := LastInLeaf(n, p, q, i, min);
      return;
    }
    KidIsSound(n, h, p, q, i);
    BeforeIsPrefix(n.kids[i], h - 1, c[1..]);
    ok, d := PrevLargeEnough(n.kids[i], h - 1, Low(n.segs, i, p), High(n.segs, i, q), c[1..], min);
    ghost var k := |Before(n.kids[i], h - 1, c[1..])|;
    assert |Before(n, h, c)| == Start(n, h, i) + k;
    if ok {
      LastInKid(n, h, p, q, min, i, k, d);
      return true, [i] + d;
    }
    NoneBelowInKid(n, h, p, q, min, i, k);
    if n.gap < min { return false, []; }
    ok, d := LastInKids(n, h, p, q, i, min);
  }
}
