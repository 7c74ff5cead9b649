/** Sets in which nothing is left to merge, and what inserting and merging keep. */
module SegmentSettle {
  import opened Words
  import opened SegmentList
  import opened SegmentMap

  /** Segment c does not merge with b, but does with a and b as one. */
  predicate RejoinsAfter(f: Functions, a: Segment, b: Segment, c: Segment) {
    && a.start < a.end == b.start < b.end == c.start < c.end
    && f.merge(b, c).None? && f.merge(a, b).Some?
    && f.merge(Segment(a.start, b.end, f.merge(a, b).value), c).Some?
  }

  /** What does not merge with a segment does not merge with it after the segment has
      grown on its other side. */
  ghost predicate StableBothWays(f: Functions) { Stable(f) && forall a, b, c :: !RejoinsAfter(f, a, b, c) }

  /** No two neighbours touch and merge. */
  ghost predicate AllSettled(l: seq<Segment>, f: Functions) {
    forall i :: 0 <= i && i + 1 < |l| ==> !(l[i].end == l[i + 1].start && f.merge(l[i], l[i + 1]).Some?)
  }

  /** Inserting keeps a settled set settled, if the merge function is stable. */
  ghost predicate StaysSettled(l: seq<Segment>, f: Functions, r: seq<Segment>) {
    StableBothWays(f) && AllSettled(l, f) ==> AllSettled(r, f)
  }

  // ----- inserting -----

  ghost predicate Join(f: Functions, a: Segment, b: Segment) { a.end == b.start && f.merge(a, b).Some? }

  function JoinOf(f: Functions, a: Segment, b: Segment): Segment
    requires f.merge(a, b).Some?
  {
    Segment(a.start, b.end, f.merge(a, b).value)
  }

  predicate Long(s: Segment) { s.start < s.end }

  lemma ApartBefore(f: Functions, a: Segment, b: Segment, c: Segment)
    requires Stable(f) && Long(a) && Long(b) && Long(c) && !Join(f, a, b) && Join(f, b, c)
    ensures !Join(f, a, JoinOf(f, b, c))
  {
    assert !Rejoins(f, a, b, c);
  }

  lemma ApartAfter(f: Functions, a: Segment, b: Segment, c: Segment)
    requires StableBothWays(f) && Long(a) && Long(b) && Long(c) && !Join(f, b, c) && Join(f, a, b)
    ensures !Join(f, JoinOf(f, a, b), c)
  {
    assert !RejoinsAfter(f, a, b, c);
  }

  /** Segments p up to n replaced by one. */
  function Replaced(l: seq<Segment>, p: nat, n: nat, x: Segment): seq<Segment>
    requires p <= n <= |l|
  {
    l[..p] + [x] + l[n..]
  }

  lemma ReplacedSettled(l: seq<Segment>, p: nat, n: nat, x: Segment, f: Functions)
    requires p <= n <= |l| && AllSettled(l, f)
    requires (p > 0 ==> !Join(f, l[p - 1], x)) && (n < |l| ==> !Join(f, x, l[n]))
    ensures AllSettled(Replaced(l, p, n, x), f)
  {
    var r := Replaced(l, p, n, x);
    forall i | 0 <= i && i + 1 < |r| ensures !(r[i].end == r[i + 1].start && f.merge(r[i], r[i + 1]).Some?) {
      if i + 1 < p {
        assert r[i] == l[i] && r[i + 1] == l[i + 1];
      } else if i > p {
        var j := n + (i - p - 1);
        assert r[i] == l[j] && r[i + 1] == l[j + 1];
      } else if i == p {
        assert r[i] == x && r[i + 1] == l[n];
      } else {
        assert r[i] == l[p - 1] && r[i + 1] == x;
      }
    }
  }

  /** What Insert makes of the list, in each case. */
  lemma InsertCases(l: seq<Segment>, k: nat, s: Segment, f: Functions)
    requires k <= |l|
    ensures InsertMerging(l, k, s, f) ==
              if k > 0 && Join(f, l[k - 1], s) then
                var m := JoinOf(f, l[k - 1], s);
                if k < |l| && Join(f, m, l[k]) then Replaced(l, k - 1, k + 1, JoinOf(f, m, l[k]))
                else Replaced(l, k - 1, k, m)
              else if k < |l| && Join(f, s, l[k]) then Replaced(l, k, k + 1, JoinOf(f, s, l[k]))
              else Replaced(l, k, k, s)
  {
    var all := InsertAtIndex(l, k, s);
    assert all[k] == s && (k > 0 ==> all[k - 1] == l[k - 1]) && (k < |l| ==> all[k + 1] == l[k]);
    if k > 0 && Join(f, l[k - 1], s) {
      var m := JoinOf(f, l[k - 1], s);
      var a := MergeAtIndex(all, k - 1, f);
      assert a == l[..k - 1] + [m] + l[k..] && a[k - 1] == m && (k < |l| ==> a[k] == l[k]);
      if k < |l| && Join(f, m, l[k]) { assert a[k - 1 + 2..] == l[k + 1..]; }
    } else if k < |l| && Join(f, s, l[k]) {
      assert all[..k] == l[..k] && all[k + 2..] == l[k + 1..];
    }
  }

  lemma LongAround(l: seq<Segment>, k: nat, s: Segment, lo: int, hi: int)
    requires Ordered(l, lo, hi) && Fits(l, k, s, lo, hi)
    ensures k <= |l| && Long(s) && forall i :: 0 <= i < |l| ==> Long(l[i])
  {
  }

  /** Insert leaves nothing to merge where there was nothing before. */
  lemma InsertKeepsSettled(l: seq<Segment>, k: nat, s: Segment, f: Functions, lo: int, hi: int)
    requires Ordered(l, lo, hi) && Fits(l, k, s, lo, hi)
    ensures StaysSettled(l, f, InsertMerging(l, k, s, f))
  {
    hide Ordered, Fits, InsertMerging, Replaced, Stable;
    LongAround(l, k, s, lo, hi);
    InsertCases(l, k, s, f);
    if StableBothWays(f) && AllSettled(l, f) {
      if k > 0 && Join(f, l[k - 1], s) {
        GrownSettled(l, k, s, f);
      } else if k < |l| && Join(f, s, l[k]) {
        if k > 0 { ApartBefore(f, l[k - 1], s, l[k]); }
        if k + 1 < |l| { ApartAfter(f, s, l[k], l[k + 1]); }
        ReplacedSettled(l, k, k + 1, JoinOf(f, s, l[k]), f);
      } else {
        ReplacedSettled(l, k, k, s, f);
      }
    }
  }

  lemma GrownSettled(l: seq<Segment>, k: nat, s: Segment, f: Functions)
    requires 0 < k <= |l| && Long(s) && (forall i :: 0 <= i < |l| ==> Long(l[i])) && Join(f, l[k - 1], s)
    requires StableBothWays(f) && AllSettled(l, f)
    ensures var m := JoinOf(f, l[k - 1], s);
            if k < |l| && Join(f, m, l[k]) then AllSettled(Replaced(l, k - 1, k + 1, JoinOf(f, m, l[k])), f)
            else AllSettled(Replaced(l, k - 1, k, m), f)
  {
    hide Replaced, Stable;
    var m := JoinOf(f, l[k - 1], s);
    if k > 1 {
      assert l[k - 2 + 1] == l[k - 1];
      ApartBefore(f, l[k - 2], l[k - 1], s);
    }
    if k < |l| && Join(f, m, l[k]) {
      if k > 1 { ApartBefore(f, l[k - 2], m, l[k]); }
      if k + 1 < |l| { ApartAfter(f, m, l[k], l[k + 1]); }
      ReplacedSettled(l, k - 1, k + 1, JoinOf(f, m, l[k]), f);
    } else {
      ReplacedSettled(l, k - 1, k, m, f);
    }
  }

  /** Inserting keeps every settled set settled exactly when the merge function is
      stable on both sides. */
  lemma InsertSettlesIff(f: Functions)
    ensures StableBothWays(f) <==>
            forall l, k: nat, s, lo, hi :: Ordered(l, lo, hi) && Fits(l, k, s, lo, hi) && AllSettled(l, f) ==>
              AllSettled(InsertMerging(l, k, s, f), f)
  {
    if StableBothWays(f) {
      forall l, k: nat, s, lo, hi | Ordered(l, lo, hi) && Fits(l, k, s, lo, hi) && AllSettled(l, f)
        ensures AllSettled(InsertMerging(l, k, s, f), f)
      {
        InsertKeepsSettled(l, k, s, f, lo, hi);
      }
    } else if a, b, c :| Rejoins(f, a, b, c) {
      BetweenUnsettles(f, a, b, c);
    } else {
      var a, b, c :| RejoinsAfter(f, a, b, c);
      BeforeUnsettles(f, a, b, c);
    }
  }

  lemma BetweenUnsettles(f: Functions, a: Segment, b: Segment, c: Segment)
    requires Rejoins(f, a, b, c)
    ensures var l := [a, c];
            Ordered(l, a.start, c.end) && Fits(l, 1, b, a.start, c.end) && AllSettled(l, f)
            && !AllSettled(InsertMerging(l, 1, b, f), f)
  {
    var l, m := [a, c], JoinOf(f, b, c);
    InsertCases(l, 1, b, f);
    var r := InsertMerging(l, 1, b, f);
    assert r == [a, m];
    assert r[0] == a && r[0 + 1] == m;
  }

  lemma BeforeUnsettles(f: Functions, a: Segment, b: Segment, c: Segment)
    requires RejoinsAfter(f, a, b, c)
    ensures var l := [b, c];
            Ordered(l, a.start, c.end) && Fits(l, 0, a, a.start, c.end) && AllSettled(l, f)
            && !AllSettled(InsertMerging(l, 0, a, f), f)
  {
    var l, m := [b, c], JoinOf(f, a, b);
    InsertCases(l, 0, a, f);
    var r := InsertMerging(l, 0, a, f);
    assert r == [m, c];
    assert r[0] == m && r[0 + 1] == c;
  }

  /** Insert is an insertion without merging, followed by one merging pass over the
      new segment and its neighbours. */
  lemma InsertIsInsertThenMerge(l: seq<Segment>, k: nat, s: Segment, f: Functions, lo: int, hi: int)
    requires Ordered(l, lo, hi) && Fits(l, k, s, lo, hi)
    ensures InsertMerging(l, k, s, f)
         == MergeTail(InsertAtIndex(l, k, s), if k > 0 then k - 1 else 0, f, s.end + 1)
  {
    hide MergeTail, MergedInto, InsertMerging, InsertAtIndex;
    InsertedOrdered(l, k, s, lo, hi);
    if k > 0 && MergedInto(f, l[k - 1], s).Some? {
      GrowsThenMerges(l, k, s, f, lo, hi);
    } else {
      OnlyMerges(l, k, s, f, lo, hi);
    }
  }

  lemma OnlyMerges(l: seq<Segment>, k: nat, s: Segment, f: Functions, lo: int, hi: int)
    requires k <= |l| && Ordered(InsertAtIndex(l, k, s), lo, hi) && Long(s)
    requires k > 0 ==> MergedInto(f, l[k - 1], s).None?
    ensures InsertMerging(l, k, s, f)
         == MergeTail(InsertAtIndex(l, k, s), if k > 0 then k - 1 else 0, f, s.end + 1)
  {
    hide MergeTail, MergedInto, Ordered, MergeAtIndex, InsertAtIndex;
    var all := InsertAtIndex(l, k, s);
    InsertNeighbours(l, k, s);
    assert k > 0 ==> all[k - 1 + 1] == s;
    if k > 0 { MergeTailStep(all, k - 1, f, s.end + 1); }
    MergesOnce(all, k, f, s.end, lo, hi);
  }

  lemma InsertNeighbours(l: seq<Segment>, k: nat, s: Segment)
    requires k <= |l|
    ensures var all := InsertAtIndex(l, k, s);
            all[k] == s && (k > 0 ==> all[k - 1] == l[k - 1]) && (k < |l| ==> all[k + 1] == l[k]) && |all| == |l| + 1
  {
  }

  lemma GrowsThenMerges(l: seq<Segment>, k: nat, s: Segment, f: Functions, lo: int, hi: int)
    requires 0 < k <= |l| && Ordered(InsertAtIndex(l, k, s), lo, hi) && MergedInto(f, l[k - 1], s).Some? && Long(s)
    ensures InsertMerging(l, k, s, f) == MergeTail(InsertAtIndex(l, k, s), k - 1, f, s.end + 1)
  {
    hide MergeTail, MergedInto, Ordered;
    var all := InsertAtIndex(l, k, s);
    InsertNeighbours(l, k, s);
    assert all[k - 1 + 1] == s;
    MergeTailStep(all, k - 1, f, s.end + 1);
    MergedOrdered(all, k - 1, f, lo, hi);
    MergedEnds(all, k - 1, f);
    var a := MergeAtIndex(all, k - 1, f);
    MergesOnce(a, k - 1, f, s.end, lo, hi);
    assert |a| == |l| && (k < |l| ==> a[k - 1 + 1] == l[k]);
  }

  lemma MergedEnds(l: seq<Segment>, k: nat, f: Functions)
    requires k + 1 < |l| && MergedInto(f, l[k], l[k + 1]).Some?
    ensures MergeAtIndex(l, k, f)[k].end == l[k + 1].end
  {
  }

  /** A pass from a segment up to its end merges it with the next one, if at all. */
  lemma MergesOnce(l: seq<Segment>, k: nat, f: Functions, end: int, lo: int, hi: int)
    requires Ordered(l, lo, hi) && k < |l| && l[k].end == end
    ensures MergeTail(l, k, f, end + 1)
         == if k + 1 < |l| && MergedInto(f, l[k], l[k + 1]).Some? then MergeAtIndex(l, k, f) else l
  {
    hide MergeTail;
    MergeTailStep(l, k, f, end + 1);
    if k + 1 < |l| {
      if MergedInto(f, l[k], l[k + 1]).Some? {
        MergedOrdered(l, k, f, lo, hi);
        var m := MergeAtIndex(l, k, f);
        MergeTailStep(m, k, f, end + 1);
        assert k + 1 < |m| ==> m[k + 1] == l[k + 2];
      } else if l[k + 1].start < end + 1 {
        MergeTailStep(l, k + 1, f, end + 1);
      }
    }
  }

  // ----- merging a range -----

  /** Of neighbours with keys on both sides in the range, none touch and merge. */
  ghost predicate SettledBetween(l: seq<Segment>, f: Functions, start: int, end: int) {
    forall i :: 0 <= i && i + 1 < |l| && l[i].end > start && l[i + 1].start < end ==>
      !(l[i].end == l[i + 1].start && f.merge(l[i], l[i + 1]).Some?)
  }

  /** The first segment that ends after x. */
  function LowerBound(l: seq<Segment>, x: int): (r: nat)
    ensures r <= |l|
  {
    if l == [] || l[0].end > x then 0 else 1 + LowerBound(l[1..], x)
  }

  lemma {:induction false} EndsBefore(l: seq<Segment>, x: int)
    ensures forall i :: 0 <= i < LowerBound(l, x) ==> l[i].end <= x
  {
    if l != [] && l[0].end <= x {
      EndsBefore(l[1..], x);
      forall i | 0 <= i < LowerBound(l, x) ensures l[i].end <= x { if i > 0 { assert l[i] == l[1..][i - 1]; } }
    }
  }

  lemma {:induction false} OrderedFollows(l: seq<Segment>, k: nat, lo: int, hi: int)
    requires Ordered(l, lo, hi) && k < |l|
    ensures Following(l[k], l[k + 1..])
    decreases |l| - k
  {
    if k + 1 < |l| {
      OrderedFollows(l, k + 1, lo, hi);
      assert l[k + 1..][1..] == l[k + 2..];
    }
  }

  /** After a pass with a stable merge function the range is settled. */
  lemma PassSettlesRange(l: seq<Segment>, f: Functions, start: int, end: int, lo: int, hi: int)
    requires Ordered(l, lo, hi)
    ensures Stable(f) ==> SettledBetween(MergeTail(l, LowerBound(l, start), f, end), f, start, end)
  {
    hide Ordered, Stable, MergePass, LowerBound;
    var k := LowerBound(l, start);
    EndsBefore(l, start);
    if k < |l| && Stable(f) {
      OrderedFollows(l, k, lo, hi);
      PassSettles(l[k], l[k + 1..], f, end);
      TailSettled(l[..k], MergePass(l[k], l[k + 1..], f, end), f, start, end);
    }
  }

  lemma TailSettled(a: seq<Segment>, b: seq<Segment>, f: Functions, start: int, end: int)
    requires (forall i :: 0 <= i < |a| ==> a[i].end <= start) && Settled(b, f, end)
    ensures SettledBetween(a + b, f, start, end)
  {
    var r := a + b;
    assert forall i :: 0 <= i < |a| ==> r[i] == a[i];
    forall i | 0 <= i && i + 1 < |r| && r[i].end > start && r[i + 1].start < end
      ensures !(r[i].end == r[i + 1].start && f.merge(r[i], r[i + 1]).Some?)
    {
      if i >= |a| { assert r[i] == b[i - |a|] && r[i + 1] == b[i - |a| + 1]; }
    }
  }

  lemma PassSettlesAll(l: seq<Segment>, f: Functions, lo: int, hi: int)
    requires Ordered(l, lo, hi)
    ensures Stable(f) ==> AllSettled(MergeTail(l, 0, f, hi), f)
  {
    hide Ordered, Stable, MergePass;
    if l != [] && Stable(f) {
      StartsBelow(l, lo, hi);
      OrderedFollows(l, 0, lo, hi);
      PassSettles(l[0], l[1..], f, hi);
      var r := MergePass(l[0], l[1..], f, hi);
      assert l[..0] + r == r;
      StartsBefore(l[0], l[1..], f, hi);
    }
  }

  lemma StartsBelow(l: seq<Segment>, lo: int, hi: int)
    requires Ordered(l, lo, hi)
    ensures AllStart(l, hi)
  {
  }

  ghost predicate AllStart(l: seq<Segment>, end: int) { forall i :: 0 <= i < |l| ==> l[i].start < end }

  /** A pass makes up no starts. */
  lemma {:induction false} StartsBefore(cur: Segment, rest: seq<Segment>, f: Functions, end: int)
    requires cur.start < end && AllStart(rest, end)
    ensures AllStart(MergePass(cur, rest, f, end), end)
    decreases |rest|
  {
    if rest != [] {
      var m := MergedInto(f, cur, rest[0]);
      assert forall i :: 0 <= i < |rest[1..]| ==> rest[1..][i] == rest[i + 1];
      if m.Some? {
        StartsBefore(m.value, rest[1..], f, end);
        assert MergePass(cur, rest, f, end) == MergePass(m.value, rest[1..], f, end);
      } else {
        StartsBefore(rest[0], rest[1..], f, end);
        var p := MergePass(rest[0], rest[1..], f, end);
        assert forall i :: 0 < i < |[cur] + p| ==> ([cur] + p)[i] == p[i - 1];
      }
    }
  }

  /** Segments that end before the range or start behind it are not touched. */
  lemma {:induction false} PassKeepsOutside(l: seq<Segment>, k: nat, j: nat, f: Functions, end: int)
    requires k < j <= |l| && forall i :: j <= i < |l| ==> l[i].start >= end
    ensures var r, n := MergeTail(l, k, f, end), |l| - j;
            |r| > k + n && r[..k] == l[..k] && r[|r| - n..] == l[j..]
    decreases |l| - k
  {
    hide MergeTail, MergedInto;
    MergeTailStep(l, k, f, end);
    if k + 1 < |l| && l[k + 1].start < end {
      if MergedInto(f, l[k], l[k + 1]).Some? {
        var m := MergeAtIndex(l, k, f);
        assert m[..k] == l[..k] && m[j - 1..] == l[j..];
        forall i | j - 1 <= i < |m| ensures m[i].start >= end { assert m[i] == l[i + 1]; }
        PassKeepsOutside(m, k, j - 1, f, end);
      } else {
        PassKeepsOutside(l, k + 1, j, f, end);
        var r := MergeTail(l, k + 1, f, end);
        assert r[..k] == r[..k + 1][..k] && l[..k] == l[..k + 1][..k];
      }
    }
  }
}
