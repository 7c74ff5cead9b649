/** Segments in order, and the gaps between them: what a set of segments means. */
module SegmentList {

  /** The values are opaque to the set. */
  type Value(==, !new)

  /** The keys start up to end - 1 have the value. */
  datatype Segment = Segment(start: int, end: int, value: Value)

  function Max(a: int, b: int): int { if a >= b then a else b }

  /** Non-empty, disjoint and ascending, between lo and hi. */
  ghost predicate Ordered(l: seq<Segment>, lo: int, hi: int) {
    && lo <= hi
    && (forall i :: 0 <= i < |l| ==> lo <= l[i].start < l[i].end <= hi)
    && (forall i, j :: 0 <= i < j < |l| ==> l[i].end <= l[j].start)
  }

  /** The longest gap before, between and after the segments of l, from p to q. */
  function MaxGap(p: int, l: seq<Segment>, q: int): int
    decreases |l|
  {
    if l == [] then q - p else Max(l[0].start - p, MaxGap(l[0].end, l[1..], q))
  }

  lemma {:induction false} MaxGapJoin(p: int, a: seq<Segment>, k: Segment, b: seq<Segment>, q: int)
    ensures MaxGap(p, a + [k] + b, q) == Max(MaxGap(p, a, k.start), MaxGap(k.end, b, q))
    decreases |a|
  {
    var l := a + [k] + b;
    if a == [] {
      assert l[1..] == b;
    } else {
      assert l[1..] == a[1..] + [k] + b;
      MaxGapJoin(a[0].end, a[1..], k, b, q);
    }
  }

  /** The gap before segment i: from the end of the one before it. */
  function GapStart(l: seq<Segment>, i: nat, lo: int): int
    requires i <= |l|
  {
    if i == 0 then lo else l[i - 1].end
  }

  function GapEnd(l: seq<Segment>, i: nat, hi: int): int
    requires i <= |l|
  {
    if i == |l| then hi else l[i].start
  }

  function GapLength(l: seq<Segment>, i: nat, lo: int, hi: int): int
    requires i <= |l|
  {
    GapEnd(l, i, hi) - GapStart(l, i, lo)
  }

  /** MaxGap is the maximum: no gap is longer, and one is as long. */
  lemma {:induction false} MaxGapIsMax(l: seq<Segment>, lo: int, hi: int)
    ensures forall i :: 0 <= i <= |l| ==> GapLength(l, i, lo, hi) <= MaxGap(lo, l, hi)
    ensures exists i :: 0 <= i <= |l| && GapLength(l, i, lo, hi) == MaxGap(lo, l, hi)
  {
    if l == [] {
      assert GapLength(l, 0, lo, hi) == MaxGap(lo, l, hi);
    } else {
      var t := l[1..];
      MaxGapIsMax(t, l[0].end, hi);
      forall i | 0 <= i <= |l| ensures GapLength(l, i, lo, hi) <= MaxGap(lo, l, hi) {
        if i > 0 { assert GapLength(l, i, lo, hi) == GapLength(t, i - 1, l[0].end, hi); }
      }
      if l[0].start - lo >= MaxGap(l[0].end, t, hi) {
        assert GapLength(l, 0, lo, hi) == MaxGap(lo, l, hi);
      } else {
        var i :| 0 <= i <= |t| && GapLength(t, i, l[0].end, hi) == MaxGap(l[0].end, t, hi);
        assert GapLength(l, i + 1, lo, hi) == MaxGap(lo, l, hi);
      }
    }
  }

  /** A gap that is not the longest can be divided without changing the longest. */
  lemma {:induction false} MaxGapDivided(lo: int, l: seq<Segment>, hi: int, j: nat, s: Segment)
    requires j <= |l| && GapStart(l, j, lo) <= s.start <= s.end <= GapEnd(l, j, hi)
    requires GapLength(l, j, lo, hi) != MaxGap(lo, l, hi)
    ensures MaxGap(lo, l[..j] + [s] + l[j..], hi) == MaxGap(lo, l, hi)
    decreases j
  {
    var m := l[..j] + [s] + l[j..];
    MaxGapIsMax(l, lo, hi);
    assert GapLength(l, j, lo, hi) < MaxGap(lo, l, hi);
    if j == 0 {
      assert m[1..] == l;
    } else {
      var t := l[1..];
      assert m[1..] == t[..j - 1] + [s] + t[j - 1..];
      if GapLength(t, j - 1, l[0].end, hi) != MaxGap(l[0].end, t, hi) {
        MaxGapDivided(l[0].end, t, hi, j - 1, s);
      } else {
        MaxGapShrinks(l[0].end, t, hi, j - 1, s);
      }
    }
  }

  /** Dividing a gap never makes the longest longer. */
  lemma {:induction false} MaxGapShrinks(lo: int, l: seq<Segment>, hi: int, j: nat, s: Segment)
    requires j <= |l| && GapStart(l, j, lo) <= s.start <= s.end <= GapEnd(l, j, hi)
    ensures MaxGap(lo, l[..j] + [s] + l[j..], hi) <= MaxGap(lo, l, hi)
    decreases j
  {
    var m := l[..j] + [s] + l[j..];
    if j == 0 {
      assert m[1..] == l;
    } else {
      var t := l[1..];
      assert m[1..] == t[..j - 1] + [s] + t[j - 1..];
      MaxGapShrinks(l[0].end, t, hi, j - 1, s);
    }
  }

  /** A segment split in two has no gap of its own. */
  lemma {:induction false} MaxGapSplit(lo: int, l: seq<Segment>, hi: int, j: nat, a: Segment, b: Segment)
    requires 0 < j <= |l| && a.start == l[j - 1].start && a.end == b.start && b.end == l[j - 1].end
    requires MaxGap(lo, l, hi) >= 0
    ensures var m := l[j - 1 := a]; MaxGap(lo, m[..j] + [b] + m[j..], hi) == MaxGap(lo, l, hi)
  {
    var x, y := l[..j - 1], l[j..];
    var m := l[j - 1 := a];
    assert l == x + [l[j - 1]] + y;
    assert m[..j] + [b] + m[j..] == x + [a] + ([b] + y);
    MaxGapJoin(lo, x, l[j - 1], y, hi);
    MaxGapJoin(lo, x, a, [b] + y, hi);
    assert ([b] + y)[1..] == y;
  }

  /** Two lists whose gaps have the same lengths except one, which is shorter in the
      second and not the longest of the first. */
  lemma MaxGapNarrowed(lo: int, l: seq<Segment>, hi: int, lo2: int, l2: seq<Segment>, hi2: int, j: nat)
    requires |l2| == |l| && j <= |l|
    requires forall i :: 0 <= i <= |l| && i != j ==> GapLength(l2, i, lo2, hi2) == GapLength(l, i, lo, hi)
    requires GapLength(l2, j, lo2, hi2) <= GapLength(l, j, lo, hi) && GapLength(l, j, lo, hi) != MaxGap(lo, l, hi)
    ensures MaxGap(lo2, l2, hi2) == MaxGap(lo, l, hi)
  {
    MaxGapIsMax(l, lo, hi);
    MaxGapIsMax(l2, lo2, hi2);
    var i :| 0 <= i <= |l| && GapLength(l, i, lo, hi) == MaxGap(lo, l, hi);
    assert GapLength(l2, i, lo2, hi2) == MaxGap(lo, l, hi);
  }
}
