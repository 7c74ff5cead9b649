/** A list of segments as a map from keys, and what merging and splitting mean. */
module SegmentMap {
  import opened Words
  import opened SegmentList

  /** The functions a set is instantiated with. */
  datatype Functions = Functions(merge: (Segment, Segment) -> Option<Value>, split: (Segment, int) -> (Value, Value))

  predicate Contains(s: Segment, x: int) { s.start <= x < s.end }

  /** What l maps x to, where den is what a segment means at a key. */
  function Lookup<D>(l: seq<Segment>, den: (Segment, int) -> D, x: int): Option<D> {
    if l == [] then None else if Contains(l[0], x) then Some(den(l[0], x)) else Lookup(l[1..], den, x)
  }

  lemma {:induction false} LookupJoin<D>(a: seq<Segment>, b: seq<Segment>, den: (Segment, int) -> D, x: int)
    ensures Lookup(a + b, den, x) == if Lookup(a, den, x).Some? then Lookup(a, den, x) else Lookup(b, den, x)
  {
    if a == [] {
      assert a + b == b;
    } else {
      assert (a + b)[1..] == a[1..] + b;
      LookupJoin(a[1..], b, den, x);
    }
  }

  lemma LookupParts<D>(a: seq<Segment>, m: seq<Segment>, b: seq<Segment>, den: (Segment, int) -> D, x: int)
    ensures Lookup(a + m + b, den, x) == if Lookup(a, den, x).Some? then Lookup(a, den, x)
                                         else if Lookup(m, den, x).Some? then Lookup(m, den, x) else Lookup(b, den, x)
  {
    LookupJoin(a + m, b, den, x);
    LookupJoin(a, m, den, x);
  }

  lemma {:induction false} LookupNone<D>(l: seq<Segment>, den: (Segment, int) -> D, x: int)
    requires forall i :: 0 <= i < |l| ==> !Contains(l[i], x)
    ensures Lookup(l, den, x).None?
  {
    if l != [] { LookupNone(l[1..], den, x); }
  }

  lemma {:induction false} LookupSome<D>(l: seq<Segment>, den: (Segment, int) -> D, x: int)
    requires Lookup(l, den, x).Some?
    ensures exists i :: 0 <= i < |l| && Contains(l[i], x)
  {
    if Contains(l[0], x) {
    } else {
      LookupSome(l[1..], den, x);
      var i :| 0 <= i < |l[1..]| && Contains(l[1..][i], x);
      assert Contains(l[i + 1], x);
    }
  }

  lemma LookupOne<D>(s: Segment, den: (Segment, int) -> D, x: int)
    ensures Lookup([s], den, x) == if Contains(s, x) then Some(den(s, x)) else None
  {
    assert Lookup([s][1..], den, x).None?;
  }

  lemma LookupTwo<D>(s: Segment, t: Segment, den: (Segment, int) -> D, x: int)
    ensures Lookup([s, t], den, x) ==
              if Contains(s, x) then Some(den(s, x)) else if Contains(t, x) then Some(den(t, x)) else None
  {
    assert [s, t] == [s] + [t];
    LookupJoin([s], [t], den, x);
    LookupOne(s, den, x);
    LookupOne(t, den, x);
  }

  /** Merging and splitting change no meaning. */
  ghost predicate Lawful<D>(f: Functions, den: (Segment, int) -> D) {
    && (forall a: Segment, b: Segment, x: int :: a.end == b.start && f.merge(a, b).Some? ==>
          var m := Segment(a.start, b.end, f.merge(a, b).value);
          (Contains(a, x) ==> den(m, x) == den(a, x)) && (Contains(b, x) ==> den(m, x) == den(b, x)))
    && (forall s: Segment, k: int, x: int :: s.start < k < s.end && Contains(s, x) ==>
          var part := if x < k then Segment(s.start, k, f.split(s, k).0) else Segment(k, s.end, f.split(s, k).1);
          den(part, x) == den(s, x))
  }

  function FirstPart(f: Functions, s: Segment, k: int): Segment { Segment(s.start, k, f.split(s, k).0) }

  function SecondPart(f: Functions, s: Segment, k: int): Segment { Segment(k, s.end, f.split(s, k).1) }

  /** Two neighbours as one, if they can be merged. */
  function MergedInto(f: Functions, a: Segment, b: Segment): Option<Segment> {
    if a.end != b.start then None
    else
      match f.merge(a, b)
      case None => None
      case Some(v) => Some(Segment(a.start, b.end, v))
  }

  /** Exactly segments that touch and whose values merge are merged. */
  lemma MergedExactly(f: Functions, a: Segment, b: Segment)
    ensures MergedInto(f, a, b) == if a.end == b.start && f.merge(a, b).Some?
                                   then Some(Segment(a.start, b.end, f.merge(a, b).value)) else None
  {
  }

  lemma PartsMeanTheSame<D>(f: Functions, den: (Segment, int) -> D, s: Segment, k: int, x: int)
    requires Lawful(f, den) && s.start < k < s.end
    ensures Lookup([FirstPart(f, s, k), SecondPart(f, s, k)], den, x) == Lookup([s], den, x)
  {
    LookupTwo(FirstPart(f, s, k), SecondPart(f, s, k), den, x);
    LookupOne(s, den, x);
  }

  lemma MergedMeansTheSame<D>(f: Functions, den: (Segment, int) -> D, a: Segment, b: Segment, x: int)
    requires Lawful(f, den) && MergedInto(f, a, b).Some? && a.start < a.end && b.start < b.end
    ensures Lookup([MergedInto(f, a, b).value], den, x) == Lookup([a, b], den, x)
  {
    LookupTwo(a, b, den, x);
    LookupOne(MergedInto(f, a, b).value, den, x);
  }

  // ----- the operations on lists -----

  function SplitAtIndex(l: seq<Segment>, k: nat, f: Functions, key: int): seq<Segment>
    requires k < |l|
  {
    l[..k] + [FirstPart(f, l[k], key), SecondPart(f, l[k], key)] + l[k + 1..]
  }

  lemma SplitMeansTheSame<D>(l: seq<Segment>, k: nat, f: Functions, key: int, den: (Segment, int) -> D, x: int)
    requires k < |l| && Lawful(f, den) && l[k].start < key < l[k].end
    ensures Lookup(SplitAtIndex(l, k, f, key), den, x) == Lookup(l, den, x)
  {
    hide Lawful;
    PartsMeanTheSame(f, den, l[k], key, x);
    assert l == l[..k] + [l[k]] + l[k + 1..];
    LookupParts(l[..k], [l[k]], l[k + 1..], den, x);
    LookupParts(l[..k], [FirstPart(f, l[k], key), SecondPart(f, l[k], key)], l[k + 1..], den, x);
  }

  /** Segments k and k + 1 merged. */
  function MergeAtIndex(l: seq<Segment>, k: nat, f: Functions): seq<Segment>
    requires k + 1 < |l| && MergedInto(f, l[k], l[k + 1]).Some?
  {
    l[..k] + [MergedInto(f, l[k], l[k + 1]).value] + l[k + 2..]
  }

  lemma MergeMeansTheSame<D>(l: seq<Segment>, k: nat, f: Functions, den: (Segment, int) -> D, x: int)
    requires k + 1 < |l| && MergedInto(f, l[k], l[k + 1]).Some? && Lawful(f, den) && l[k].start < l[k].end
    requires l[k + 1].start < l[k + 1].end
    ensures Lookup(MergeAtIndex(l, k, f), den, x) == Lookup(l, den, x)
  {
    hide Lawful;
    MergedMeansTheSame(f, den, l[k], l[k + 1], x);
    assert l == l[..k] + [l[k], l[k + 1]] + l[k + 2..];
    LookupParts(l[..k], [l[k], l[k + 1]], l[k + 2..], den, x);
    LookupParts(l[..k], [MergedInto(f, l[k], l[k + 1]).value], l[k + 2..], den, x);
  }

  /** One pass of merging: the current segment takes over what follows it as long as
      that merges and starts before end; then the next one is current. */
  function MergePass(cur: Segment, rest: seq<Segment>, f: Functions, end: int): (r: seq<Segment>)
    ensures |r| > 0
    decreases |rest|
  {
    if rest == [] || rest[0].start >= end then [cur] + rest
    else
      match MergedInto(f, cur, rest[0])
      case Some(m) => MergePass(m, rest[1..], f, end)
      case None => [cur] + MergePass(rest[0], rest[1..], f, end)
  }

  /** The pass over the segments from index k on. */
  function MergeTail(l: seq<Segment>, k: nat, f: Functions, end: int): seq<Segment>
    requires k <= |l|
  {
    if k == |l| then l else l[..k] + MergePass(l[k], l[k + 1..], f, end)
  }

  lemma NothingToMerge(l: seq<Segment>, f: Functions, end: int)
    ensures MergeTail(l, |l|, f, end) == l
  {
  }

  lemma MergeTailStep(l: seq<Segment>, k: nat, f: Functions, end: int)
    requires k < |l|
    ensures MergeTail(l, k, f, end) ==
              if k + 1 == |l| || l[k + 1].start >= end then l
              else if MergedInto(f, l[k], l[k + 1]).Some? then MergeTail(MergeAtIndex(l, k, f), k, f, end)
              else MergeTail(l, k + 1, f, end)
  {
    hide MergedInto;
    if k + 1 < |l| {
      var rest := l[k + 1..];
      assert rest[0] == l[k + 1] && rest[1..] == l[k + 2..];
      assert l[..k + 1] == l[..k] + [l[k]];
      if MergedInto(f, l[k], l[k + 1]).Some? {
        var m := MergeAtIndex(l, k, f);
        assert m[..k] == l[..k] && m[k] == MergedInto(f, l[k], l[k + 1]).value && m[k + 1..] == l[k + 2..];
      }
    }
  }

  /** A pass maps no key differently. */
  lemma {:induction false} MergeTailMeansTheSame<D>(l: seq<Segment>, k: nat, f: Functions, end: int, lo: int, hi: int,
                                                   den: (Segment, int) -> D, x: int)
    requires Ordered(l, lo, hi) && k <= |l| && Lawful(f, den)
    ensures Lookup(MergeTail(l, k, f, end), den, x) == Lookup(l, den, x)
    decreases |l| - k
  {
    hide Lawful, Lookup, MergedInto, MergeTail, Ordered;
    if k == |l| {
      NothingToMerge(l, f, end);
    } else {
      MergeTailStep(l, k, f, end);
      if k + 1 < |l| && l[k + 1].start < end {
        if MergedInto(f, l[k], l[k + 1]).Some? {
          OrderedPair(l, k, lo, hi);
          MergedOrdered(l, k, f, lo, hi);
          MergeMeansTheSame(l, k, f, den, x);
          MergeTailMeansTheSame(MergeAtIndex(l, k, f), k, f, end, lo, hi, den, x);
        } else {
          MergeTailMeansTheSame(l, k + 1, f, end, lo, hi, den, x);
        }
      }
    }
  }

  lemma OrderedPair(l: seq<Segment>, k: nat, lo: int, hi: int)
    requires Ordered(l, lo, hi) && k + 1 < |l|
    ensures l[k].start < l[k].end && l[k + 1].start < l[k + 1].end
  {
  }

  /** After the pass, no neighbours merge any more if the second starts before end. */
  ghost predicate Settled(r: seq<Segment>, f: Functions, end: int) {
    forall i :: 0 <= i && i + 1 < |r| && r[i + 1].start < end ==>
      !(r[i].end == r[i + 1].start && f.merge(r[i], r[i + 1]).Some?)
  }

  /** Segment a merges with b and c as one, but not with b. */
  predicate Rejoins(f: Functions, a: Segment, b: Segment, c: Segment) {
    && a.start < a.end == b.start < b.end == c.start < c.end
    && f.merge(a, b).None? && f.merge(b, c).Some?
    && f.merge(a, Segment(b.start, c.end, f.merge(b, c).value)).Some?
  }

  /** What does not merge with a segment does not merge with more of it either. */
  ghost predicate Stable(f: Functions) { forall a, b, c :: !Rejoins(f, a, b, c) }

  /** A list of segments that follow one another. */
  predicate Following(cur: Segment, rest: seq<Segment>)
    decreases |rest|
  {
    && cur.start < cur.end
    && (rest != [] ==> cur.end <= rest[0].start && Following(rest[0], rest[1..]))
  }

  lemma {:induction false} FirstOfPass(a: Segment, cur: Segment, rest: seq<Segment>, f: Functions, end: int)
    requires Stable(f) && Following(cur, rest) && a.start < a.end && MergedInto(f, a, cur).None?
    ensures var r := MergePass(cur, rest, f, end); r[0].start == cur.start && MergedInto(f, a, r[0]).None?
    decreases |rest|
  {
    if rest != [] && rest[0].start < end && MergedInto(f, cur, rest[0]).Some? {
      var m := MergedInto(f, cur, rest[0]).value;
      assert !Rejoins(f, a, cur, rest[0]);
      FirstOfPass(a, m, rest[1..], f, end);
    }
  }

  lemma {:induction false} PassSettles(cur: Segment, rest: seq<Segment>, f: Functions, end: int)
    requires Stable(f) && Following(cur, rest)
    ensures Settled(MergePass(cur, rest, f, end), f, end)
    decreases |rest|
  {
    hide Stable;
    if rest == [] {
    } else if rest[0].start >= end {
      LateTail(cur, rest, end);
    } else {
      var m := MergedInto(f, cur, rest[0]);
      if m.Some? {
        PassSettles(m.value, rest[1..], f, end);
      } else {
        PassSettles(rest[0], rest[1..], f, end);
        FirstOfPass(cur, rest[0], rest[1..], f, end);
        SettledCons(cur, MergePass(rest[0], rest[1..], f, end), f, end);
      }
    }
  }

  lemma SettledCons(cur: Segment, r: seq<Segment>, f: Functions, end: int)
    requires Settled(r, f, end) && |r| > 0 && MergedInto(f, cur, r[0]).None?
    ensures Settled([cur] + r, f, end)
  {
    hide MergedInto;
    var s := [cur] + r;
    MergedExactly(f, cur, r[0]);
    forall i | 0 <= i && i + 1 < |s| && s[i + 1].start < end
      ensures !(s[i].end == s[i + 1].start && f.merge(s[i], s[i + 1]).Some?)
    {
      if i > 0 { assert s[i] == r[i - 1] && s[i + 1] == r[i - 1 + 1]; }
    }
  }

  lemma {:induction false} LateTail(cur: Segment, rest: seq<Segment>, end: int)
    requires Following(cur, rest) && rest != [] && rest[0].start >= end
    ensures forall i :: 0 < i < |[cur] + rest| ==> ([cur] + rest)[i].start >= end
    decreases |rest|
  {
    if |rest| > 1 {
      LateTail(rest[0], rest[1..], end);
      assert [rest[0]] + rest[1..] == rest;
      forall i | 0 < i < |[cur] + rest| ensures ([cur] + rest)[i].start >= end {
        if i > 1 { assert ([cur] + rest)[i] == ([rest[0]] + rest[1..])[i - 1]; }
      }
    }
  }

  /** One pass leaves nothing to merge, for every list, exactly when the merge
      function is stable. */
  lemma PassSettlesIff(f: Functions)
    ensures Stable(f) <==>
            forall cur, rest, end :: Following(cur, rest) ==> Settled(MergePass(cur, rest, f, end), f, end)
  {
    if Stable(f) {
      forall cur, rest, end | Following(cur, rest) ensures Settled(MergePass(cur, rest, f, end), f, end) {
        PassSettles(cur, rest, f, end);
      }
    } else {
      var a, b, c :| Rejoins(f, a, b, c);
      Unsettled(f, a, b, c);
    }
  }

  lemma Unsettled(f: Functions, a: Segment, b: Segment, c: Segment)
    requires Rejoins(f, a, b, c)
    ensures Following(a, [b, c]) && !Settled(MergePass(a, [b, c], f, c.end), f, c.end)
  {
    var m := MergedInto(f, b, c).value;
    assert [b, c][1..] == [c] && [c][1..] == [];
    assert Following(c, []) && Following(b, [c]);
    assert MergePass(m, [], f, c.end) == [m];
    assert MergePass(b, [c], f, c.end) == [m];
    var r := MergePass(a, [b, c], f, c.end);
    assert r == [a, m];
    assert r[0] == a && r[0 + 1] == m;
  }

  function InsertAtIndex(l: seq<Segment>, k: nat, s: Segment): seq<Segment>
    requires k <= |l|
  {
    l[..k] + [s] + l[k..]
  }

  /** S fits into gap k. */
  ghost predicate Fits(l: seq<Segment>, k: nat, s: Segment, lo: int, hi: int) {
    k <= |l| && GapStart(l, k, lo) <= s.start < s.end <= GapEnd(l, k, hi)
  }

  lemma InsertMeansUpdate<D>(l: seq<Segment>, k: nat, s: Segment, lo: int, hi: int, den: (Segment, int) -> D, x: int)
    requires Ordered(l, lo, hi) && Fits(l, k, s, lo, hi)
    ensures Lookup(InsertAtIndex(l, k, s), den, x) == if Contains(s, x) then Some(den(s, x)) else Lookup(l, den, x)
  {
    LookupParts(l[..k], [s], l[k..], den, x);
    LookupOne(s, den, x);
    assert l == l[..k] + l[k..];
    LookupJoin(l[..k], l[k..], den, x);
    if Contains(s, x) {
      forall i | 0 <= i < k ensures !Contains(l[..k][i], x) { assert l[i].end <= l[k - 1].end; }
      LookupNone(l[..k], den, x);
    }
  }

  /** Insert: the new segment is merged with its neighbours where that is possible. */
  function InsertMerging(l: seq<Segment>, k: nat, s: Segment, f: Functions): seq<Segment>
    requires k <= |l|
  {
    var all := InsertAtIndex(l, k, s);
    if k > 0 && MergedInto(f, l[k - 1], s).Some? then
      var a := MergeAtIndex(all, k - 1, f);
      if k < |l| && MergedInto(f, a[k - 1], l[k]).Some? then MergeAtIndex(a, k - 1, f) else a
    else if k < |l| && MergedInto(f, s, l[k]).Some? then MergeAtIndex(all, k, f)
    else all
  }

  /** Where the segment with the inserted keys is. */
  function InsertIndex(l: seq<Segment>, k: nat, s: Segment, f: Functions): nat
    requires k <= |l|
  {
    if k > 0 && MergedInto(f, l[k - 1], s).Some? then k - 1 else k
  }

  lemma InsertedPair(l: seq<Segment>, k: nat, s: Segment, lo: int, hi: int, i: nat, j: nat)
    requires Ordered(l, lo, hi) && Fits(l, k, s, lo, hi) && i < j <= |l|
    ensures var m := InsertAtIndex(l, k, s); m[i].end <= m[j].start
  {
    var m := InsertAtIndex(l, k, s);
    assert m[i] == if i < k then l[i] else if i == k then s else l[i - 1];
    assert m[j] == if j < k then l[j] else if j == k then s else l[j - 1];
    if j == k && i < k - 1 { assert l[i].end <= l[k - 1].start; }
    if i == k && j > k + 1 { assert l[k].end <= l[j - 1].start; }
  }

  lemma InsertedOrdered(l: seq<Segment>, k: nat, s: Segment, lo: int, hi: int)
    requires Ordered(l, lo, hi) && Fits(l, k, s, lo, hi)
    ensures Ordered(InsertAtIndex(l, k, s), lo, hi)
  {
    var m := InsertAtIndex(l, k, s);
    forall i, j | 0 <= i < j < |m| ensures m[i].end <= m[j].start { InsertedPair(l, k, s, lo, hi, i, j); }
  }

  lemma MergedOrdered(l: seq<Segment>, k: nat, f: Functions, lo: int, hi: int)
    requires Ordered(l, lo, hi) && k + 1 < |l| && MergedInto(f, l[k], l[k + 1]).Some?
    ensures Ordered(MergeAtIndex(l, k, f), lo, hi)
  {
  }

  lemma SplitOrdered(l: seq<Segment>, k: nat, f: Functions, key: int, lo: int, hi: int)
    requires Ordered(l, lo, hi) && k < |l| && l[k].start < key < l[k].end
    ensures Ordered(SplitAtIndex(l, k, f, key), lo, hi)
  {
  }

  lemma InsertMergingIsUpdate<D>(l: seq<Segment>, k: nat, s: Segment, f: Functions, lo: int, hi: int,
                                 den: (Segment, int) -> D, x: int)
    requires Ordered(l, lo, hi) && Fits(l, k, s, lo, hi) && Lawful(f, den)
    ensures Ordered(InsertMerging(l, k, s, f), lo, hi)
    ensures Lookup(InsertMerging(l, k, s, f), den, x) == if Contains(s, x) then Some(den(s, x)) else Lookup(l, den, x)
  {
    hide Lawful, Lookup;
    var all := InsertAtIndex(l, k, s);
    InsertedOrdered(l, k, s, lo, hi);
    InsertMeansUpdate(l, k, s, lo, hi, den, x);
    if k > 0 && MergedInto(f, l[k - 1], s).Some? {
      assert all[k - 1] == l[k - 1] && all[k] == s;
      var a := MergeAtIndex(all, k - 1, f);
      MergedOrdered(all, k - 1, f, lo, hi);
      MergeMeansTheSame(all, k - 1, f, den, x);
      if k < |l| && MergedInto(f, a[k - 1], l[k]).Some? {
        assert a[k] == l[k];
        MergedOrdered(a, k - 1, f, lo, hi);
        MergeMeansTheSame(a, k - 1, f, den, x);
      }
    } else if k < |l| && MergedInto(f, s, l[k]).Some? {
      assert all[k] == s && all[k + 1] == l[k];
      MergedOrdered(all, k, f, lo, hi);
      MergeMeansTheSame(all, k, f, den, x);
    }
  }
}
