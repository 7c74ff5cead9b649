/** The set: a tree that its operations replace, seen as a list of segments. */
module SegmentSet {
  import opened Words
  import opened SegmentList
  import opened SegmentNode
  import opened SegmentInsert
  import opened SegmentGaps
  import opened SegmentTree
  import opened SegmentLift
  import opened SegmentOps
  import opened SegmentEdit
  import opened SegmentSplit
  import opened SegmentMerge
  import opened SegmentCursor
  import opened SegmentMap
  import opened SegmentSettle
  import opened SegmentSearch

  lemma OrderedAscends(l: seq<Segment>, lo: int, hi: int)
    requires Ordered(l, lo, hi)
    ensures Ascending(l)
  {
  }

  /** Find agrees with lookup: a segment that maps the key, or a gap and no value. */
  lemma FoundIsLookup<D>(t: Tree, lo: int, hi: int, key: int, seg: Coord, gap: Coord, den: (Segment, int) -> D)
    requires Good(t, lo, hi) && Ordered(Segments(t), lo, hi) && Found(t.root, t.h, key, seg, gap)
    ensures Lookup(Segments(t), den, key) == if seg == [] then None else Some(den(SegOf(t.root, t.h, seg), key))
  {
    hide Flatten;
    var l := Segments(t);
    GoodIsShaped(t, lo, hi);
    if seg == [] {
      LookupNone(l, den, key);
    } else {
      SegOfAt(t.root, t.h, seg);
      LookupFirst(l, |BeforeSeg(t.root, t.h, seg)|, den, key);
    }
  }

  /** The first segment that contains the key decides. */
  lemma LookupFirst<D>(l: seq<Segment>, k: nat, den: (Segment, int) -> D, key: int)
    requires k < |l| && Contains(l[k], key) && forall i :: 0 <= i < k ==> !Contains(l[i], key)
    ensures Lookup(l, den, key) == Some(den(l[k], key))
  {
    hide Lookup;
    assert l == l[..k] + [l[k]] + l[k + 1..];
    LookupParts(l[..k], [l[k]], l[k + 1..], den, key);
    LookupOne(l[k], den, key);
    LookupNone(l[..k], den, key);
  }

  lemma NonEmptyIsSound(t: Tree, lo: int, hi: int)
    requires Good(t, lo, hi) && Segments(t) != []
    ensures SoundTree(t, lo, hi)
  {
  }

  class Set {
    const lo: int
    const hi: int
    const f: Functions
    var t: Tree

    ghost predicate Valid()
      reads this
    {
      Good(t, lo, hi) && Ordered(Segments(t), lo, hi)
    }

    ghost function View(): seq<Segment>
      reads this
    {
      Segments(t)
    }

    constructor (lo: int, hi: int, f: Functions)
      requires lo <= hi
      ensures Valid() && View() == [] && this.lo == lo && this.hi == hi && this.f == f
    {
      this.lo, this.hi, this.f := lo, hi, f;
      t := Tree(Node([], [], 0), 0);
    }

    method Find(key: int) returns (seg: Coord, gap: Coord)
      requires Valid()
      ensures Found(t.root, t.h, key, seg, gap)
    {
      GoodIsShaped(t, lo, hi);
      OrderedAscends(Segments(t), lo, hi);
      seg, gap := FindIn(t.root, t.h, key);
    }

    method InsertWithoutMergingUnchecked(gap: Coord, s: Segment, ghost k: nat) returns (seg: Coord)
      requires Valid() && GapAt(t, gap, k) && Fits(View(), k, s, lo, hi)
      modifies this
      ensures Valid() && k <= |old(View())| && View() == InsertAtIndex(old(View()), k, s) && SegAt(t, seg, k)
    {
      hide Good, Inserted, Segments;
      InsertTo(t, lo, hi, gap, s, k);
      var (u, d) := Inserted(t, lo, hi, gap, s);
      t := u;
      seg := d;
    }

    method Remove(seg: Coord, ghost k: nat) returns (gap: Coord)
      requires Valid() && SegAt(t, seg, k)
      modifies this
      ensures Valid() && k < |old(View())| && View() == old(View())[..k] + old(View())[k + 1..] && GapAt(t, gap, k)
    {
      hide Good, Removed, Segments;
      RemoveTo(t, lo, hi, seg, k);
      var (u, d) := Removed(t, lo, hi, seg);
      t := u;
      gap := d;
    }

    /** Split segment k at a key inside it. */
    method SplitUnchecked(seg: Coord, key: int, ghost k: nat) returns (a: Coord, b: Coord)
      requires Valid() && SegAt(t, seg, k) && k < |View()| && View()[k].start < key < View()[k].end
      modifies this
      ensures Valid() && k < |old(View())| && View() == SplitAtIndex(old(View()), k, f, key)
      ensures SegAt(t, a, k) && SegAt(t, b, k + 1)
    {
      hide Good, SplitTree, Segments;
      SplitTo(t, lo, hi, f, seg, key, k);
      var s := SegOf(t.root, t.h, seg);
      var (u, d) := SplitTree(t, lo, hi, GapAfter(t.root, t.h, seg), FirstPart(f, s, key), SecondPart(f, s, key));
      t := u;
      b := d;
      NeighboursAre(t, lo, hi, b, k + 1);
      a := PrevSegment(t, b);
    }

    /** Merge segment k with its predecessor, if that is possible. */
    method MergeUnchecked(second: Coord, ghost k: nat) returns (merged: Coord)
      requires Valid() && SegAt(t, second, k) && 0 < k < |View()|
      modifies this
      ensures Valid() && k < |old(View())|
      ensures var l := old(View());
              var a, b := l[k - 1], l[k];
              if a.end == b.start && f.merge(a, b).Some? then
                && merged != [] && SegAt(t, merged, k - 1) && View() == MergeAtIndex(l, k - 1, f)
                && View() == l[..k - 1] + [Segment(a.start, b.end, f.merge(a, b).value)] + l[k + 1..]
              else merged == [] && t == old(t)
    {
      hide Good, MergeTree, Segments;
      MergePair(t, lo, hi, second, k);
      var first := PrevSegment(t, second);
      var m := MergedInto(f, SegOf(t.root, t.h, first), SegOf(t.root, t.h, second));
      if m.None? { return []; }
      MergeTo(t, lo, hi, f, second, k, m.value);
      var (u, d) := MergeTree(t, lo, hi, second, m.value);
      t := u;
      GapIs(t, lo, hi, d, k);
      merged := PrevSeg(t.root, t.h, d);
    }

    /** Insert into gap k by merging with the segment before it, and with the one
        after it if that is possible. */
    method InsertByGrowing(gap: Coord, s: Segment, merged: Segment, ghost k: nat) returns (seg: Coord)
      requires Valid() && GapAt(t, gap, k) && Fits(View(), k, s, lo, hi)
      requires k > 0 && MergedInto(f, View()[k - 1], s) == Some(merged)
      modifies this
      ensures Valid() && k <= |old(View())| && View() == InsertMerging(old(View()), k, s, f)
      ensures SegAt(t, seg, k - 1)
    {
      hide Good, Segments, GrowPrev, MergedInto, Ordered, Fits;
      GrowPrevTo(t, lo, hi, f, gap, s, k);
      t := GrowPrev(t, lo, hi, gap, merged);
      GapIs(t, lo, hi, gap, k);
      var next := NextSeg(t.root, t.h, gap);
      seg := PrevSeg(t.root, t.h, gap);
      if next != [] {
        MergedExactly(f, View()[k - 1], View()[k]);
        var both := MergeUnchecked(next, k);
        if both != [] { seg := both; }
      }
    }

    /** Insert into gap k, merging with the neighbours where that is possible. */
    method Insert(gap: Coord, s: Segment, ghost k: nat) returns (seg: Coord)
      requires Valid() && GapAt(t, gap, k) && Fits(View(), k, s, lo, hi)
      modifies this
      ensures Valid() && k <= |old(View())| && View() == InsertMerging(old(View()), k, s, f)
      ensures SegAt(t, seg, InsertIndex(old(View()), k, s, f))
      ensures StaysSettled(old(View()), f, View())
    {
      InsertKeepsSettled(View(), k, s, f, lo, hi);
      hide Good, Segments, GrowNext, MergedInto, Ordered, Fits, PrevSeg, NextSeg, SegOf, Before, BeforeSeg;
      GapIs(t, lo, hi, gap, k);
      var prev, next := PrevSeg(t.root, t.h, gap), NextSeg(t.root, t.h, gap);
      if prev != [] {
        SegIs(t, lo, hi, prev, k - 1);
        var m := MergedInto(f, SegOf(t.root, t.h, prev), s);
        if m.Some? {
          seg := InsertByGrowing(gap, s, m.value, k);
          return;
        }
      }
      if next != [] {
        SegIs(t, lo, hi, next, k);
        var m := MergedInto(f, s, SegOf(t.root, t.h, next));
        if m.Some? {
          GrowNextTo(t, lo, hi, f, gap, s, k);
          t := GrowNext(t, lo, hi, gap, m.value);
          GapIs(t, lo, hi, gap, k);
          return NextSeg(t.root, t.h, gap);
        }
      }
      seg := InsertWithoutMergingUnchecked(gap, s, k);
    }

    /** Add succeeds exactly when no segment overlaps the range. */
    method Add(s: Segment) returns (ok: bool)
      requires Valid() && lo <= s.start < s.end
      modifies this
      ensures Valid()
      ensures ok <==> s.end <= hi && !Overlaps(old(View()), s)
      ensures if ok then
                exists k: nat :: Fits(old(View()), k, s, lo, hi) && View() == InsertMerging(old(View()), k, s, f)
              else t == old(t)
      ensures StaysSettled(old(View()), f, View())
    {
      hide Good, Segments;
      var seg, gap := Find(s.start);
      if seg != [] {
        FindOverlaps(t, lo, hi, s, seg);
        return false;
      }
      ghost var k := |Before(t.root, t.h, gap)|;
      GapFits(t, lo, hi, s, gap, k);
      if s.end > GapLimit(t, gap, hi) { return false; }
      seg := Insert(gap, s, k);
      return true;
    }

    /** Split the segment that straddles key, if there is one. */
    method SplitAt(key: int) returns (ok: bool)
      requires Valid()
      modifies this
      ensures Valid()
      ensures if ok then exists k: nat :: k < |old(View())| && old(View())[k].start < key < old(View())[k].end
                                         && View() == SplitAtIndex(old(View()), k, f, key)
              else t == old(t) && forall i :: 0 <= i < |View()| ==> !(View()[i].start < key < View()[i].end)
    {
      hide Good, Segments;
      var seg, gap := Find(key);
      FindStraddles(t, lo, hi, key, seg, gap);
      if seg == [] || SegOf(t.root, t.h, seg).start == key { return false; }
      ghost var k := |BeforeSeg(t.root, t.h, seg)|;
      var a, b := SplitUnchecked(seg, key, k);
      return true;
    }

    /** Split segment k so that the part that is kept does not leave the range. */
    method Isolate(seg: Coord, start: int, end: int, ghost k: nat) returns (part: Coord, ghost j: nat)
      requires Valid() && SegAt(t, seg, k) && k < |View()|
      modifies this
      ensures Valid() && k < |old(View())| && (View(), j) == Isolated(old(View()), k, f, start, end)
      ensures SegAt(t, part, j)
    {
      hide Good, Segments, Ordered, FirstPart, SecondPart, SegOf, BeforeSeg;
      part, j := seg, k;
      SegIs(t, lo, hi, part, j);
      var s := SegOf(t.root, t.h, part);
      if s.start < start < s.end {
        var a;
        a, part := SplitUnchecked(part, start, j);
        j := j + 1;
      }
      SegIs(t, lo, hi, part, j);
      s := SegOf(t.root, t.h, part);
      if s.start < end < s.end {
        var b;
        part, b := SplitUnchecked(part, end, j);
      }
    }

    /** Remove the range: its keys are mapped to nothing, all others as before. An
        empty range that starts inside a segment takes the rest of it along. The gap
        that is returned, at index j, has the range in it. */
    method RemoveRange<D>(start: int, end: int, ghost den: (Segment, int) -> D) returns (gap: Coord, ghost j: nat)
      requires Valid() && Lawful(f, den)
      modifies this
      ensures Valid() && GapAt(t, gap, j) && GapHolds(View(), j, start, RemoveLimit(old(View()), start, end))
      ensures forall x :: Lookup(View(), den, x) ==
                if start <= x < RemoveLimit(old(View()), start, end) then None else Lookup(old(View()), den, x)
    {
      hide Good, Segments, Lawful, Isolated, Lookup, Ordered, RemoveLimit, Kept;
      ghost var l0 := View();
      ghost var limit := RemoveLimit(l0, start, end);
      gap, j := RemoveFirst(start, end, den);
      GapIs(t, lo, hi, gap, j);
      var seg := NextSeg(t.root, t.h, gap);
      while seg != [] && SegOf(t.root, t.h, seg).start < end
        invariant Valid() && GapAt(t, gap, j) && j <= |View()|
        invariant if j == |View()| then seg == [] else SegAt(t, seg, j)
        invariant seg != [] ==> SegIn(t.root, t.h, seg)
        invariant StartsAt(View(), j, start) && (end <= start && j < |View()| ==> limit <= View()[j].start)
        invariant Kept(l0, View(), start, limit, den)
        decreases if j == |View()| then 0 else end - View()[j].start
      {
        ghost var l := View();
        SegIs(t, lo, hi, seg, j);
        LimitOfRange(l0, start, end);
        gap := RemoveNext(seg, start, end, j, den);
        KeptMore(l0, l, View(), start, limit, den);
        GapIs(t, lo, hi, gap, j);
        seg := NextSeg(t.root, t.h, gap);
        if seg != [] { SegIs(t, lo, hi, seg, j); }
      }
      if seg != [] { SegIs(t, lo, hi, seg, j); }
      if start < end { LimitOfRange(l0, start, end); }
      RangeIsEmpty(View(), j, lo, hi, start, limit, den);
      GapIsWide(View(), j, lo, hi, start, limit);
      KeptElse(l0, View(), start, limit, den);
    }

    /** Remove the part of the range in the segment that contains its start, if there
        is one. */
    method RemoveFirst<D>(start: int, end: int, ghost den: (Segment, int) -> D) returns (gap: Coord, ghost j: nat)
      requires Valid() && Lawful(f, den)
      modifies this
      ensures var limit := RemoveLimit(old(View()), start, end);
              && Valid() && GapAt(t, gap, j) && StartsAt(View(), j, start)
              && Kept(old(View()), View(), start, limit, den)
              && (end <= start && j < |View()| ==> limit <= View()[j].start)
    {
      hide Good, Segments, Lawful, Isolated, Lookup, Ordered, RemoveLimit;
      ghost var l0 := View();
      ghost var limit := RemoveLimit(l0, start, end);
      var seg;
      j := 0;
      seg, gap := Find(start);
      FindPosition(t, lo, hi, start, seg, gap);
      if seg != [] {
        j := |BeforeSeg(t.root, t.h, seg)|;
        ghost var i;
        seg, i := Isolate(seg, start, end, j);
        LimitInSegment(l0, j, lo, hi, start, end);
        IsolatedFirst(l0, j, f, lo, hi, start, end, den);
        j := i;
        ghost var l1 := View();
        gap := Remove(seg, j);
        RemovedInside(l1, j, lo, hi, start, limit, den);
      } else {
        j := |Before(t.root, t.h, gap)|;
        LimitInGap(l0, j, lo, hi, start, end);
      }
    }

    /** Remove the part of the range in a segment that starts in it. */
    method RemoveNext<D>(seg: Coord, start: int, end: int, ghost j: nat, ghost den: (Segment, int) -> D)
      returns (gap: Coord)
      requires Valid() && Lawful(f, den) && SegAt(t, seg, j) && j < |View()|
      requires StartsAt(View(), j, start) && View()[j].start < end
      modifies this
      ensures Valid() && GapAt(t, gap, j) && StartsAt(View(), j, start) && Kept(old(View()), View(), start, end, den)
      ensures j < |old(View())| && (j < |View()| ==> View()[j].start > old(View())[j].start)
    {
      hide Good, Segments, Lawful, Isolated, Lookup, Ordered;
      ghost var l := View();
      var part;
      ghost var i;
      part, i := Isolate(seg, start, end, j);
      IsolatedNext(l, j, f, lo, hi, start, end, den);
      ghost var l1 := View();
      gap := Remove(part, j);
      RemovedInside(l1, j, lo, hi, start, end, den);
    }

    /** Merge what can be merged, in one pass from the first segment that ends after
        start to the last that starts before end. */
    method MergeRange(start: int, end: int)
      requires Valid()
      modifies this
      ensures Valid() && View() == MergeTail(old(View()), LowerBound(old(View()), start), f, end)
      ensures Stable(f) ==> SettledBetween(View(), f, start, end)
    {
      PassSettlesRange(View(), f, start, end, lo, hi);
      hide Good, Segments, MergedInto, Ordered, MergeTail;
      var seg, gap := Find(start);
      FindPosition(t, lo, hi, start, seg, gap);
      ghost var k := 0;
      if seg != [] {
        k := |BeforeSeg(t.root, t.h, seg)|;
        LowerBoundAt(View(), k, lo, hi, start);
      } else {
        k := |Before(t.root, t.h, gap)|;
        LowerBoundGap(View(), k, lo, hi, start);
        GapIs(t, lo, hi, gap, k);
        seg := NextSeg(t.root, t.h, gap);
        if seg == [] {
          NothingToMerge(View(), f, end);
          return;
        }
      }
      MergeFrom(seg, end, k);
    }

    /** MergeAll is MergeRange over the whole set. */
    method MergeAll()
      requires Valid()
      modifies this
      ensures Valid() && View() == MergeTail(old(View()), 0, f, hi)
      ensures Stable(f) ==> AllSettled(View(), f)
    {
      PassSettlesAll(View(), f, lo, hi);
      hide Good, Segments, MergedInto, Ordered, MergeTail;
      FirstGapAt(t, lo, hi);
      GapIs(t, lo, hi, First(t.h), 0);
      var seg := NextSeg(t.root, t.h, First(t.h));
      if seg == [] {
        NothingToMerge(View(), f, hi);
        return;
      }
      MergeFrom(seg, hi, 0);
    }

    /** Merge segment k and those after it that start before end. */
    method MergeFrom(first: Coord, end: int, ghost first_k: nat)
      requires Valid() && SegAt(t, first, first_k) && first_k < |View()|
      modifies this
      ensures Valid() && first_k < |old(View())| && View() == MergeTail(old(View()), first_k, f, end)
    {
      hide Good, Segments, MergedInto, Ordered, MergeTail, SegOf, BeforeSeg, PrevSegment, NextSegment, GapAt;
      ghost var all := MergeTail(View(), first_k, f, end);
      ghost var k: nat := first_k;
      var seg := first;
      NeighboursAre(t, lo, hi, seg, k);
      var next := NextSegment(t, seg);
      while next != [] && SegOf(t.root, t.h, next).start < end
        invariant Valid() && k < |View()|
        invariant if k + 1 == |View()| then next == [] else SegAt(t, next, k + 1)
        invariant next != [] ==> SegIn(t.root, t.h, next)
        invariant MergeTail(View(), k, f, end) == all
        decreases |View()| - k
      {
        ghost var l := View();
        SegIs(t, lo, hi, next, k + 1);
        MergeTailStep(l, k, f, end);
        MergedExactly(f, l[k], l[k + 1]);
        var merged := MergeUnchecked(next, k + 1);
        if merged != [] {
          NeighboursAre(t, lo, hi, merged, k);
          seg, next := merged, NextSegment(t, merged);
        } else {
          NeighboursAre(t, lo, hi, next, k + 1);
          seg, next := next, NextSegment(t, next);
          k := k + 1;
        }
      }
      if next != [] { SegIs(t, lo, hi, next, k + 1); }
      MergeTailStep(View(), k, f, end);
    }

    /** The nearest gap after gap k that is long enough. In an empty set, whose cached
        gap may be stale, there is none to find. */
    method NextLargeEnoughGap(gap: Coord, min: int, ghost k: nat) returns (ok: bool, d: Coord)
      requires Valid() && GapAt(t, gap, k)
      ensures ok ==> FirstFrom(t.root, t.h, lo, hi, min, k + 1, d)
      ensures !ok ==> NoneIn(View(), lo, hi, min, k + 1, |View()| + 1)
    {
      hide Good, Sound, Flatten, FirstFrom;
      NotEmpty(t, lo, hi);
      if t.root.segs == [] { return false, []; }
      NonEmptyIsSound(t, lo, hi);
      ok, d := NextLargeEnough(t.root, t.h, lo, hi, gap, min);
    }

    /** The nearest gap before gap k that is long enough. */
    method PrevLargeEnoughGap(gap: Coord, min: int, ghost k: nat) returns (ok: bool, d: Coord)
      requires Valid() && GapAt(t, gap, k)
      ensures ok ==> LastUpTo(t.root, t.h, lo, hi, min, k, d)
      ensures !ok ==> NoneIn(View(), lo, hi, min, 0, k)
    {
      hide Good, Sound, Flatten, LastUpTo;
      NotEmpty(t, lo, hi);
      BeforeIsPrefix(t.root, t.h, gap);
      if t.root.segs == [] { return false, []; }
      NonEmptyIsSound(t, lo, hi);
      ok, d := PrevLargeEnough(t.root, t.h, lo, hi, gap, min);
    }

    /** All segments in order. */
    method ExportSortedSlices() returns (l: seq<Segment>)
      requires Valid()
      ensures l == View()
    {
      hide Good, Segments;
      l := [];
      FirstGapAt(t, lo, hi);
      GapIs(t, lo, hi, First(t.h), 0);
      var seg := NextSeg(t.root, t.h, First(t.h));
      while seg != []
        invariant |l| <= |View()| && l == View()[..|l|]
        invariant if |l| == |View()| then seg == [] else SegAt(t, seg, |l|)
        invariant seg != [] ==> SegIn(t.root, t.h, seg)
        decreases |View()| - |l|
      {
        SegIs(t, lo, hi, seg, |l|);
        NeighboursAre(t, lo, hi, seg, |l|);
        l := l + [SegOf(t.root, t.h, seg)];
        seg := NextSegment(t, seg);
      }
    }

    /** Fill an empty set. Success means that the list was in order, and then the
        set holds exactly that list. */
    method ImportSortedSlices(l: seq<Segment>) returns (ok: bool)
      requires Valid() && forall i :: 0 <= i < |l| ==> l[i].start < l[i].end
      modifies this
      ensures Valid() && (ok <==> old(View()) == [] && Ordered(l, lo, hi))
      ensures ok ==> View() == l
    {
      hide Good, Segments, Fits, Ordered, InsertAtIndex;
      NotEmpty(t, lo, hi);
      if t.root.segs != [] { return false; }
      FirstGapAt(t, lo, hi);
      var gap := First(t.h);
      var i: nat := 0;
      while i < |l|
        invariant i <= |l| && Valid() && View() == l[..i] && GapAt(t, gap, i)
      {
        LastGapFits(t, lo, hi, gap, l, i);
        if !(GapBase(t, gap, lo) <= l[i].start && l[i].end <= GapLimit(t, gap, hi)) { return false; }
        var seg := InsertWithoutMergingUnchecked(gap, l[i], i);
        SegIs(t, lo, hi, seg, i);
        gap := GapAfter(t.root, t.h, seg);
        i := i + 1;
      }
      assert l[..i] == l;
      return true;
    }
  }

  /** The start of a gap. */
  function GapBase(t: Tree, gap: Coord, lo: int): int
    requires At(t.root, t.h, gap)
  {
    var prev := PrevSeg(t.root, t.h, gap);
    if prev == [] then lo else SegOf(t.root, t.h, prev).end
  }

  /** The last gap, when the first i segments of a list are in the set: segment i
      fits into it unless the list is not in order. */
  lemma LastGapFits(t: Tree, lo: int, hi: int, gap: Coord, l: seq<Segment>, i: nat)
    requires Good(t, lo, hi) && GapAt(t, gap, i) && i < |l| && Segments(t) == l[..i] && l[i].start < l[i].end
    ensures if GapBase(t, gap, lo) <= l[i].start && l[i].end <= GapLimit(t, gap, hi)
            then Fits(Segments(t), i, l[i], lo, hi) else !Ordered(l, lo, hi)
    ensures InsertAtIndex(l[..i], i, l[i]) == l[..i + 1]
  {
    hide Good, Segments;
    GapIs(t, lo, hi, gap, i);
    if i > 0 { SegIs(t, lo, hi, PrevSeg(t.root, t.h, gap), i - 1); }
    assert l[..i] + [l[i]] == l[..i + 1] && l[..i][..i] == l[..i] && l[..i][i..] == [];
  }

  lemma NotEmpty(t: Tree, lo: int, hi: int)
    requires Good(t, lo, hi)
    ensures t.root.segs == [] <==> Segments(t) == []
  {
    if t.h > 0 {
      GoodIsShaped(t, lo, hi);
      assert SegIn(t.root, t.h, [0]);
      SegOfAt(t.root, t.h, [0]);
    }
  }

  lemma {:induction false} LowerBoundIs(l: seq<Segment>, k: nat, lo: int, hi: int, x: int)
    requires Ordered(l, lo, hi) && k <= |l|
    requires (forall i :: 0 <= i < k ==> l[i].end <= x) && (k < |l| ==> x < l[k].end)
    ensures LowerBound(l, x) == k
  {
    if k > 0 { LowerBoundIs(l[1..], k - 1, lo, hi, x); }
  }

  lemma LowerBoundAt(l: seq<Segment>, k: nat, lo: int, hi: int, x: int)
    requires Ordered(l, lo, hi) && k < |l| && Contains(l[k], x)
    ensures LowerBound(l, x) == k
  {
    LowerBoundIs(l, k, lo, hi, x);
  }

  lemma LowerBoundGap(l: seq<Segment>, k: nat, lo: int, hi: int, x: int)
    requires Ordered(l, lo, hi) && StartsAt(l, k, x)
    ensures LowerBound(l, x) == k
  {
    LowerBoundIs(l, k, lo, hi, x);
  }

  /** The end of the segment that contains x, or x if there is none. */
  function EndOf(l: seq<Segment>, x: int): (r: int)
    ensures x <= r
  {
    if l == [] then x else if Contains(l[0], x) then l[0].end else EndOf(l[1..], x)
  }

  /** How far RemoveRange removes. */
  function RemoveLimit(l: seq<Segment>, start: int, end: int): int { if start < end then end else EndOf(l, start) }

  lemma {:induction false} EndOfSegment(l: seq<Segment>, k: nat, lo: int, hi: int, x: int)
    requires Ordered(l, lo, hi) && k < |l| && Contains(l[k], x)
    ensures EndOf(l, x) == l[k].end
  {
    if k > 0 {
      assert l[0].end <= l[k].start;
      EndOfSegment(l[1..], k - 1, lo, hi, x);
    }
  }

  lemma {:induction false} EndOfNone(l: seq<Segment>, x: int)
    requires forall i :: 0 <= i < |l| ==> !Contains(l[i], x)
    ensures EndOf(l, x) == x
  {
    if l != [] { EndOfNone(l[1..], x); }
  }

  lemma LimitInSegment(l: seq<Segment>, k: nat, lo: int, hi: int, start: int, end: int)
    requires Ordered(l, lo, hi) && k < |l| && Contains(l[k], start)
    ensures RemoveLimit(l, start, end) == if start < end then end else l[k].end
  {
    EndOfSegment(l, k, lo, hi, start);
  }

  lemma LimitInGap(l: seq<Segment>, j: nat, lo: int, hi: int, start: int, end: int)
    requires Ordered(l, lo, hi) && StartsAt(l, j, start) && forall i :: 0 <= i < |l| ==> !Contains(l[i], start)
    ensures RemoveLimit(l, start, end) == if start < end then end else start
  {
    EndOfNone(l, start);
  }

  lemma LimitOfRange(l: seq<Segment>, start: int, end: int)
    requires start < end
    ensures RemoveLimit(l, start, end) == end
  {
  }

  /** "Removes all segments in the given range" fails for an empty range exactly
      when the range starts inside a segment or at its first key: then the keys
      from there to the end of the segment are removed. */
  lemma EmptyRangeRemoves<D>(l: seq<Segment>, lo: int, hi: int, start: int, end: int, den: (Segment, int) -> D,
                             after: seq<Segment>)
    requires Ordered(l, lo, hi) && end <= start
    requires forall x :: Lookup(after, den, x) ==
               if start <= x < RemoveLimit(l, start, end) then None else Lookup(l, den, x)
    ensures (forall x :: Lookup(after, den, x) == Lookup(l, den, x)) <==>
            forall i :: 0 <= i < |l| ==> !Contains(l[i], start)
  {
    if i :| 0 <= i < |l| && Contains(l[i], start) {
      EndOfSegment(l, i, lo, hi, start);
      LookupAt(l, i, lo, hi, den, start);
      assert Lookup(after, den, start) != Lookup(l, den, start);
    } else {
      EndOfNone(l, start);
    }
  }

  lemma {:induction false} LookupAt<D>(l: seq<Segment>, i: nat, lo: int, hi: int, den: (Segment, int) -> D, x: int)
    requires Ordered(l, lo, hi) && i < |l| && Contains(l[i], x)
    ensures Lookup(l, den, x) == Some(den(l[i], x))
  {
    if i > 0 {
      assert l[0].end <= l[i].start;
      LookupAt(l[1..], i - 1, lo, hi, den, x);
    }
  }

  /** The first j segments end by start, and the others start no earlier. */
  ghost predicate StartsAt(l: seq<Segment>, j: nat, start: int) {
    && j <= |l| && (forall i :: 0 <= i < j ==> l[i].end <= start) && (forall i :: j <= i < |l| ==> start <= l[i].start)
  }

  /** The gap at an index has in it what lies between the keys. */
  ghost predicate GapHolds(l: seq<Segment>, j: nat, start: int, limit: int) {
    StartsAt(l, j, start) && forall i :: j <= i < |l| ==> limit <= l[i].start
  }

  /** Outside the keys the map is as it was. */
  ghost predicate Kept<D>(l: seq<Segment>, l': seq<Segment>, start: int, limit: int, den: (Segment, int) -> D) {
    forall x :: !(start <= x < limit) ==> Lookup(l', den, x) == Lookup(l, den, x)
  }

  lemma KeptMore<D>(l: seq<Segment>, l1: seq<Segment>, l2: seq<Segment>, start: int, limit: int,
                    den: (Segment, int) -> D)
    requires Kept(l, l1, start, limit, den) && Kept(l1, l2, start, limit, den)
    ensures Kept(l, l2, start, limit, den)
  {
    hide Lookup;
  }

  lemma KeptElse<D>(l: seq<Segment>, l': seq<Segment>, start: int, limit: int, den: (Segment, int) -> D)
    requires Kept(l, l', start, limit, den) && forall x :: start <= x < limit ==> Lookup(l', den, x).None?
    ensures forall x :: Lookup(l', den, x) == if start <= x < limit then None else Lookup(l, den, x)
  {
    hide Lookup;
  }

  lemma GapIsWide(l: seq<Segment>, j: nat, lo: int, hi: int, start: int, limit: int)
    requires Ordered(l, lo, hi) && StartsAt(l, j, start) && (j < |l| ==> limit <= l[j].start)
    ensures GapHolds(l, j, start, limit)
  {
  }

  lemma FindPosition(t: Tree, lo: int, hi: int, key: int, seg: Coord, gap: Coord)
    requires Good(t, lo, hi) && Ordered(Segments(t), lo, hi) && Found(t.root, t.h, key, seg, gap)
    ensures seg != [] ==>
              var k := |BeforeSeg(t.root, t.h, seg)|;
              SegAt(t, seg, k) && k < |Segments(t)| && Contains(Segments(t)[k], key)
    ensures seg == [] ==>
              && At(t.root, t.h, gap) && GapAt(t, gap, |Before(t.root, t.h, gap)|)
              && StartsAt(Segments(t), |Before(t.root, t.h, gap)|, key)
    ensures seg == [] ==> forall i :: 0 <= i < |Segments(t)| ==> !Contains(Segments(t)[i], key)
  {
    hide Flatten;
    GoodIsShaped(t, lo, hi);
    if seg != [] { SegOfAt(t.root, t.h, seg); }
  }

  /** The segment with start in it, isolated: the part is inside the range, and what
      is before it ends there. */
  lemma IsolatedFirst<D>(l: seq<Segment>, k: nat, f: Functions, lo: int, hi: int, start: int, end: int,
                         den: (Segment, int) -> D)
    requires Ordered(l, lo, hi) && Lawful(f, den) && k < |l| && Contains(l[k], start)
    ensures var (m, j) := Isolated(l, k, f, start, end);
            && Ordered(m, lo, hi) && j < |m| && StartsAt(m, j, start)
            && (if start < end then m[j].end <= end else m[j].end == l[k].end)
            && forall x :: Lookup(m, den, x) == Lookup(l, den, x)
  {
    hide Lawful, Lookup, Ordered, StartsAt;
    var l1 := if l[k].start < start then SplitAtIndex(l, k, f, start) else l;
    var j := if l[k].start < start then k + 1 else k;
    if l[k].start < start {
      SplitOrdered(l, k, f, start, lo, hi);
      forall x ensures Lookup(l1, den, x) == Lookup(l, den, x) { SplitMeansTheSame(l, k, f, start, den, x); }
    }
    assert l1[j].start == start && l1[j].end == l[k].end;
    OrderedStarts(l1, j, lo, hi);
    if start < end {
      IsolatedNext(l1, j, f, lo, hi, start, end, den);
    }
  }

  /** A segment that starts in the range, isolated. */
  lemma IsolatedNext<D>(l: seq<Segment>, j: nat, f: Functions, lo: int, hi: int, start: int, end: int,
                        den: (Segment, int) -> D)
    requires Ordered(l, lo, hi) && Lawful(f, den) && j < |l| && start <= l[j].start < end
    ensures var (m, i) := Isolated(l, j, f, start, end);
            && i == j && Ordered(m, lo, hi) && j < |m| && m[j].start == l[j].start && m[j].end <= end
            && (forall i :: 0 <= i < j ==> m[i] == l[i])
            && (forall x :: Lookup(m, den, x) == Lookup(l, den, x)) && (StartsAt(l, j, start) ==> StartsAt(m, j, start))
            && StartsAt(m, j, m[j].start)
  {
    hide Lawful, Lookup;
    if l[j].start < end < l[j].end {
      SplitOrdered(l, j, f, end, lo, hi);
      forall x ensures Lookup(SplitAtIndex(l, j, f, end), den, x) == Lookup(l, den, x) {
        SplitMeansTheSame(l, j, f, end, den, x);
      }
    }
    var (m, i) := Isolated(l, j, f, start, end);
    OrderedStarts(m, j, lo, hi);
  }

  lemma OrderedStarts(l: seq<Segment>, j: nat, lo: int, hi: int)
    requires Ordered(l, lo, hi) && j < |l|
    ensures StartsAt(l, j, l[j].start)
  {
  }

  /** Removing a segment inside the range changes no key outside of it. */
  lemma RemovedInside<D>(l: seq<Segment>, j: nat, lo: int, hi: int, start: int, end: int, den: (Segment, int) -> D)
    requires Ordered(l, lo, hi) && j < |l| && start <= l[j].start && l[j].end <= end && StartsAt(l, j, start)
    ensures var m := l[..j] + l[j + 1..];
            && Ordered(m, lo, hi) && StartsAt(m, j, start)
            && (j < |m| ==> l[j].start < m[j].start && l[j].end <= m[j].start)
            && forall x :: !(start <= x < end) ==> Lookup(m, den, x) == Lookup(l, den, x)
  {
    var m := l[..j] + l[j + 1..];
    RemovedOrdered(l, j, lo, hi);
    assert l == l[..j] + [l[j]] + l[j + 1..];
    forall x | !(start <= x < end) ensures Lookup(m, den, x) == Lookup(l, den, x) {
      LookupParts(l[..j], [l[j]], l[j + 1..], den, x);
      LookupJoin(l[..j], l[j + 1..], den, x);
      LookupOne(l[j], den, x);
    }
  }

  lemma RangeIsEmpty<D>(l: seq<Segment>, j: nat, lo: int, hi: int, start: int, end: int, den: (Segment, int) -> D)
    requires Ordered(l, lo, hi) && StartsAt(l, j, start) && (j < |l| ==> end <= l[j].start)
    ensures forall x :: start <= x < end ==> Lookup(l, den, x).None?
  {
    forall x | start <= x < end ensures Lookup(l, den, x).None? {
      forall i | 0 <= i < |l| ensures !Contains(l[i], x) { if i > j { assert l[j].end <= l[i].start; } }
      LookupNone(l, den, x);
    }
  }

  predicate Overlap(a: Segment, b: Segment) { a.start < b.end && b.start < a.end }

  ghost predicate Overlaps(l: seq<Segment>, s: Segment) { exists i :: 0 <= i < |l| && Overlap(l[i], s) }

  /** The list after Isolate, and the index of the part. */
  function Isolated(l: seq<Segment>, k: nat, f: Functions, start: int, end: int): (seq<Segment>, nat)
    requires k < |l|
  {
    var (l1, j) := if l[k].start < start < l[k].end then (SplitAtIndex(l, k, f, start), k + 1) else (l, k);
    (if l1[j].start < end < l1[j].end then SplitAtIndex(l1, j, f, end) else l1, j)
  }

  /** The end of a gap. */
  function GapLimit(t: Tree, gap: Coord, hi: int): int
    requires At(t.root, t.h, gap)
  {
    var next := NextSeg(t.root, t.h, gap);
    if next == [] then hi else SegOf(t.root, t.h, next).start
  }

  lemma FindOverlaps(t: Tree, lo: int, hi: int, s: Segment, seg: Coord)
    requires Good(t, lo, hi) && seg != [] && Found(t.root, t.h, s.start, seg, []) && s.start < s.end
    ensures Overlaps(Segments(t), s)
  {
    GoodIsShaped(t, lo, hi);
    SegOfAt(t.root, t.h, seg);
    assert Overlap(Segments(t)[|BeforeSeg(t.root, t.h, seg)|], s);
  }

  /** In the gap where a range starts, it fits up to the end of the gap. */
  lemma GapFits(t: Tree, lo: int, hi: int, s: Segment, gap: Coord, k: nat)
    requires Good(t, lo, hi) && Ordered(Segments(t), lo, hi) && Found(t.root, t.h, s.start, [], gap)
    requires lo <= s.start < s.end
    requires k == |Before(t.root, t.h, gap)|
    ensures GapAt(t, gap, k)
    ensures s.end <= GapLimit(t, gap, hi) <==> s.end <= hi && !Overlaps(Segments(t), s)
    ensures s.end <= GapLimit(t, gap, hi) ==> Fits(Segments(t), k, s, lo, hi)
  {
    hide Flatten, Before;
    var l := Segments(t);
    GapIs(t, lo, hi, gap, k);
    if k < |l| {
      SegIs(t, lo, hi, NextSeg(t.root, t.h, gap), k);
      if s.end > l[k].start { assert Overlap(l[k], s); }
    }
  }

  lemma FindStraddles(t: Tree, lo: int, hi: int, key: int, seg: Coord, gap: Coord)
    requires Good(t, lo, hi) && Ordered(Segments(t), lo, hi) && Found(t.root, t.h, key, seg, gap)
    ensures seg != [] ==> var k := |BeforeSeg(t.root, t.h, seg)|;
              && SegAt(t, seg, k) && k < |Segments(t)| && SegOf(t.root, t.h, seg) == Segments(t)[k]
              && Contains(Segments(t)[k], key)
              && (Segments(t)[k].start == key ==>
                    forall i :: 0 <= i < |Segments(t)| ==> !(Segments(t)[i].start < key < Segments(t)[i].end))
    ensures seg == [] ==> forall i :: 0 <= i < |Segments(t)| ==> !(Segments(t)[i].start < key < Segments(t)[i].end)
  {
    hide Flatten;
    GoodIsShaped(t, lo, hi);
    var l := Segments(t);
    if seg != [] {
      SegOfAt(t.root, t.h, seg);
      var k := |BeforeSeg(t.root, t.h, seg)|;
      if l[k].start == key {
        forall i | 0 <= i < |l| ensures !(l[i].start < key < l[i].end) {}
      }
    }
  }

  /** Growing a neighbour is inserting and merging. */
  lemma GrownPrevList(l: seq<Segment>, k: nat, s: Segment, f: Functions, lo: int, hi: int)
    requires Ordered(l, lo, hi) && Fits(l, k, s, lo, hi) && k > 0 && MergedInto(f, l[k - 1], s).Some?
    ensures var all, m := InsertAtIndex(l, k, s), MergedInto(f, l[k - 1], s).value;
            && all[k - 1] == l[k - 1] && all[k] == s && m.start == l[k - 1].start && l[k - 1].end <= m.end
            && MergeAtIndex(all, k - 1, f) == l[k - 1 := m] && Ordered(l[k - 1 := m], lo, hi)
  {
    hide Ordered;
    var all, m := InsertAtIndex(l, k, s), MergedInto(f, l[k - 1], s).value;
    InsertedOrdered(l, k, s, lo, hi);
    assert all[k - 1] == l[k - 1] && all[k] == s && all[k + 1..] == l[k..] && all[..k - 1] == l[..k - 1];
    MergedOrdered(all, k - 1, f, lo, hi);
    assert l[k - 1 := m] == l[..k - 1] + [m] + l[k..];
  }

  lemma GrownNextList(l: seq<Segment>, k: nat, s: Segment, f: Functions, lo: int, hi: int)
    requires Ordered(l, lo, hi) && Fits(l, k, s, lo, hi) && k < |l| && MergedInto(f, s, l[k]).Some?
    ensures var all, m := InsertAtIndex(l, k, s), MergedInto(f, s, l[k]).value;
            && all[k] == s && all[k + 1] == l[k] && m.start <= l[k].start && l[k].end == m.end
            && MergeAtIndex(all, k, f) == l[k := m] && Ordered(l[k := m], lo, hi)
  {
    hide Ordered;
    var all, m := InsertAtIndex(l, k, s), MergedInto(f, s, l[k]).value;
    InsertedOrdered(l, k, s, lo, hi);
    assert all[k] == s && all[k + 1] == l[k] && all[k + 2..] == l[k + 1..] && all[..k] == l[..k];
    MergedOrdered(all, k, f, lo, hi);
    assert l[k := m] == l[..k] + [m] + l[k + 1..];
  }

  lemma GrowPrevTo(t: Tree, lo: int, hi: int, f: Functions, gap: Coord, s: Segment, k: nat)
    requires Good(t, lo, hi) && Ordered(Segments(t), lo, hi) && GapAt(t, gap, k) && Fits(Segments(t), k, s, lo, hi)
    requires k > 0
    ensures k <= |Segments(t)|
    ensures var m := MergedInto(f, Segments(t)[k - 1], s);
            m.Some? ==> var u := GrowPrev(t, lo, hi, gap, m.value);
              && Good(u, lo, hi) && Ordered(Segments(u), lo, hi) && GapAt(u, gap, k)
              && Segments(u) == MergeAtIndex(InsertAtIndex(Segments(t), k, s), k - 1, f)
              && |Segments(u)| == |Segments(t)| && (k < |Segments(t)| ==> Segments(u)[k] == Segments(t)[k])
  {
    hide Sound, Flatten, GrowPrev, Before, Ordered, MergedInto, MergeAtIndex;
    var l := Segments(t);
    NonEmptyIsSound(t, lo, hi);
    var m := MergedInto(f, l[k - 1], s);
    if m.Some? {
      GrownPrevList(l, k, s, f, lo, hi);
      GrowPrevIsGood(t, lo, hi, gap, m.value);
    }
  }

  lemma GrowNextTo(t: Tree, lo: int, hi: int, f: Functions, gap: Coord, s: Segment, k: nat)
    requires Good(t, lo, hi) && Ordered(Segments(t), lo, hi) && GapAt(t, gap, k) && Fits(Segments(t), k, s, lo, hi)
    requires k < |Segments(t)|
    ensures var m := MergedInto(f, s, Segments(t)[k]);
            m.Some? ==>
              && At(SetNext(t.root, t.h, gap, m.value), t.h, gap)
              && var u := GrowNext(t, lo, hi, gap, m.value);
                 && Good(u, lo, hi) && Ordered(Segments(u), lo, hi) && GapAt(u, gap, k)
                 && Segments(u) == MergeAtIndex(InsertAtIndex(Segments(t), k, s), k, f)
                 && |Segments(u)| == |Segments(t)|
  {
    hide Sound, Flatten, GrowNext, SetNext, Before, Ordered, MergedInto, MergeAtIndex;
    var l := Segments(t);
    NonEmptyIsSound(t, lo, hi);
    var m := MergedInto(f, s, l[k]);
    if m.Some? {
      GrownNextList(l, k, s, f, lo, hi);
      GrowNextIsGood(t, lo, hi, gap, m.value);
    }
  }

  lemma InsertTo(t: Tree, lo: int, hi: int, gap: Coord, s: Segment, k: nat)
    requires Good(t, lo, hi) && Ordered(Segments(t), lo, hi) && GapAt(t, gap, k) && Fits(Segments(t), k, s, lo, hi)
    ensures Slim(t.root, t.h, gap) && k <= |Segments(t)|
    ensures var (u, d) := Inserted(t, lo, hi, gap, s);
            Good(u, lo, hi) && Ordered(Segments(u), lo, hi) && Segments(u) == InsertAtIndex(Segments(t), k, s)
              && SegAt(u, d, k)
  {
    hide Sound, Flatten, Inserted;
    InsertedIsGood(t, lo, hi, gap, s);
    InsertedOrdered(Segments(t), k, s, lo, hi);
    var (u, d) := Inserted(t, lo, hi, gap, s);
    GapNamesSeg(u, lo, hi, d, k);
  }

  lemma RemoveTo(t: Tree, lo: int, hi: int, seg: Coord, k: nat)
    requires Good(t, lo, hi) && Ordered(Segments(t), lo, hi) && SegAt(t, seg, k)
    ensures Removable(t, lo, hi, seg) && k < |Segments(t)|
    ensures var (u, d) := Removed(t, lo, hi, seg);
            Good(u, lo, hi) && Ordered(Segments(u), lo, hi) && Segments(u) == Segments(t)[..k] + Segments(t)[k + 1..]
              && GapAt(u, d, k)
  {
    hide Sound, Flatten, Removed, Along;
    SegIs(t, lo, hi, seg, k);
    NonEmptyIsSound(t, lo, hi);
    SoundIsStale(t, lo, hi, GapBefore(t.root, t.h, seg));
    RemovedIsGood(t, lo, hi, seg);
    RemovedOrdered(Segments(t), k, lo, hi);
  }

  lemma RemovedOrdered(l: seq<Segment>, k: nat, lo: int, hi: int)
    requires Ordered(l, lo, hi) && k < |l|
    ensures Ordered(l[..k] + l[k + 1..], lo, hi)
  {
  }

  lemma SplitTo(t: Tree, lo: int, hi: int, f: Functions, seg: Coord, key: int, k: nat)
    requires Good(t, lo, hi) && Ordered(Segments(t), lo, hi) && SegAt(t, seg, k) && k < |Segments(t)|
    requires Segments(t)[k].start < key < Segments(t)[k].end
    ensures SegOf(t.root, t.h, seg) == Segments(t)[k]
    ensures At(t.root, t.h, GapAfter(t.root, t.h, seg)) && Slim(t.root, t.h, GapAfter(t.root, t.h, seg))
    ensures var s := Segments(t)[k];
            var (u, d) := SplitTree(t, lo, hi, GapAfter(t.root, t.h, seg), FirstPart(f, s, key), SecondPart(f, s, key));
            Good(u, lo, hi) && Ordered(Segments(u), lo, hi) && Segments(u) == SplitAtIndex(Segments(t), k, f, key)
              && SegAt(u, d, k + 1)
  {
    hide Sound, Flatten, SplitTree, Before, BeforeSeg, GapAfter, SegOf, LeafSize;
    SegIs(t, lo, hi, seg, k);
    NonEmptyIsSound(t, lo, hi);
    var s, c := Segments(t)[k], GapAfter(t.root, t.h, seg);
    var a, b := FirstPart(f, s, key), SecondPart(f, s, key);
    assert SplitsPrev(t.root, t.h, lo, hi, c, a, b);
    SplitTreeIsGood(t, lo, hi, c, a, b);
    SplitOrdered(Segments(t), k, f, key, lo, hi);
    var (u, d) := SplitTree(t, lo, hi, c, a, b);
    GapNamesSeg(u, lo, hi, d, k + 1);
  }

  /** Segment k and its predecessor. */
  lemma MergePair(t: Tree, lo: int, hi: int, second: Coord, k: nat)
    requires Good(t, lo, hi) && SegAt(t, second, k) && 0 < k < |Segments(t)|
    ensures At(t.root, t.h, GapBefore(t.root, t.h, second)) && SegAt(t, PrevSegment(t, second), k - 1)
    ensures SegOf(t.root, t.h, second) == Segments(t)[k]
    ensures SegOf(t.root, t.h, PrevSegment(t, second)) == Segments(t)[k - 1]
  {
    hide Good, Segments, BeforeSeg, PrevSeg, NextSeg;
    NeighboursAre(t, lo, hi, second, k);
    SegIs(t, lo, hi, second, k);
    SegIs(t, lo, hi, PrevSegment(t, second), k - 1);
  }

  /** A tree that holds l, with a gap after k segments. */
  ghost predicate Holds(t: Tree, c: Coord, lo: int, hi: int, l: seq<Segment>, k: nat) {
    Good(t, lo, hi) && Ordered(Segments(t), lo, hi) && Segments(t) == l && GapAt(t, c, k)
  }

  /** Merging the segment at second with its predecessor, to m, leaves l. */
  ghost predicate MergesTo(t: Tree, lo: int, hi: int, second: Coord, m: Segment, l: seq<Segment>, k: nat) {
    && Mergeable(t, lo, hi, second, m)
    && var (u, d) := MergeTree(t, lo, hi, second, m);
       Holds(u, d, lo, hi, l, k)
  }

  lemma MergeTo(t: Tree, lo: int, hi: int, f: Functions, second: Coord, k: nat, m: Segment)
    requires Good(t, lo, hi) && Ordered(Segments(t), lo, hi) && SegAt(t, second, k) && 0 < k < |Segments(t)|
    requires MergedInto(f, Segments(t)[k - 1], Segments(t)[k]) == Some(m)
    ensures MergesTo(t, lo, hi, second, m, MergeAtIndex(Segments(t), k - 1, f), k)
  {
    hide Sound, Flatten, MergeTree, Mergeable, BeforeSeg, Before, At, SegIn;
    NonEmptyIsSound(t, lo, hi);
    MergeTreeIsGood(t, lo, hi, second, m);
    MergedOrdered(Segments(t), k - 1, f, lo, hi);
  }
}
