/** Renames in the 9P server: all references with the old name get a new parent
    and a new name, one after the other, while their old parents may be closed. */
module FidRename {
  import opened Words
  import opened PathNodes
  import opened FidState
  import opened FidSteps
  import opened FidTree

  // ---- The target is not below what is moved -------------------------------

  /** The reference or one of its ancestors is in the set. */
  ghost predicate Under(s: State, h: Hands, depth: seq<nat>, r: RefId, top: set<RefId>)
    requires Good0(s, h, depth) && Live(s, r)
    decreases if r < |depth| then depth[r] else 0
  {
    r in top || (s.refs[r].parent.Some? && (ParentLives(s, h, r); Under(s, h, depth, s.refs[r].parent.value, top)))
  }

  ghost predicate Good0(s: State, h: Hands, depth: seq<nat>) { Inv(s, h) && Tidy(s, h, depth) && h.loose == {} }

  /** A file that is not deleted and lies under the references with a name has
      its node below that name. */
  lemma {:induction false} UnderIsBelow(s: State, h: Hands, rank: seq<nat>, depth: seq<nat>, n: NodeId, name: string,
                                        r: RefId)
    requires Good(s, h, rank, depth) && h.loose == {} && h.unplaced == {} && n < |s.nodes|
    requires Live(s, r) && !s.refs[r].deleted && Under(s, h, depth, r, s.nodes[n].RefsNamed(name))
    ensures name in s.nodes[n].childNodes && s.refs[r].node in Below(s.nodes, rank, s.nodes[n].childNodes[name])
    decreases depth[r]
  {
    hide Counted, ClosedOnce, Below;
    if r in s.nodes[n].RefsNamed(name) {
      assert NamedAt(s, h, n, r);
      assert PlacedAt(s, r);
      var top := s.nodes[n].childNodes[name];
      BelowOf(s.nodes, rank, top, top);
    } else {
      var p := s.refs[r].parent.value;
      ParentLives(s, h, r);
      UnderIsBelow(s, h, rank, depth, n, name, p);
      assert PlacedAt(s, r);
      BelowChild(s.nodes, rank, s.nodes[n].childNodes[name], s.refs[p].node, s.nodes[s.refs[p].node].childRefNames[r]);
    }
  }

  /** Depths under which the moved references are deeper than the target. */
  ghost function Deepened(s: State, h: Hands, depth: seq<nat>, top: set<RefId>, d: nat): (depth': seq<nat>)
    requires Good0(s, h, depth)
    ensures |depth'| == |depth|
  {
    seq(|depth|, i requires 0 <= i < |depth| =>
      if Live(s, i) && Under(s, h, depth, i, top) then depth[i] + d else depth[i])
  }

  lemma DeepenedIsTidy(s: State, h: Hands, depth: seq<nat>, top: set<RefId>, d: nat)
    requires Good0(s, h, depth)
    ensures Tidy(s, h, Deepened(s, h, depth, top, d))
  {
    hide Counted, ClosedOnce, Named, Placed;
    forall r | 0 <= r < |s.refs| && Live(s, r) && s.refs[r].parent.Some?
      ensures Deepened(s, h, depth, top, d)[s.refs[r].parent.value] < Deepened(s, h, depth, top, d)[r]
    {
      ParentLives(s, h, r);
    }
  }

  // ---- Half way through ----------------------------------------------------

  /** Some references got the target as their parent, and the new name; some files
      were closed; nothing else changed. */
  ghost predicate Moving(s: State, s': State, target: RefId, new_: string, moved: set<RefId>)
    requires target < |s.refs|
  {
    && |s'.refs| == |s.refs| && |s'.nodes| == |s.nodes| && s'.fids == s.fids
    && (forall r :: 0 <= r < |s.refs| ==>
          && s'.refs[r] == s.refs[r].(count := s'.refs[r].count, closed := s'.refs[r].closed,
                                      parent := if r in moved then Some(target) else s.refs[r].parent)
          && (Live(s', r) ==> Live(s, r)))
    && (forall n :: 0 <= n < |s.nodes| ==> s'.nodes[n].childNodes == s.nodes[n].childNodes)
    && forall n, r :: 0 <= n < |s.nodes| ==> MovingName(s, s', target, new_, moved, n, r)
  }

  ghost predicate MovingName(s: State, s': State, target: RefId, new_: string, moved: set<RefId>, n: NodeId, r: RefId)
    requires target < |s.refs| && n < |s.nodes| == |s'.nodes|
  {
    var names, names' := s.nodes[n].childRefNames, s'.nodes[n].childRefNames;
    && (r in names' <==> Live(s', r) && if r in moved then n == s.refs[target].node else r in names)
    && (r in names' && r in moved ==> names'[r] == new_)
    && (r in names' && r !in moved ==> names'[r] == names[r])
  }

  /** One turn of the loop: unname, drop the old parent, set the new one, take it,
      and name. */
  lemma MovingOneMore(s: State, a: State, b: State, n: NodeId, r: RefId, target: RefId, new_: string,
                      moved: set<RefId>)
    requires target < |s.refs| && Moving(s, a, target, new_, moved)
    requires n < |a.nodes| && a.nodes[n].Matched() && r in a.nodes[n].childRefNames && r !in moved
    requires OnlyCloses(Unnaming(a, n, r), b) && Live(b, r)
    requires s.refs[target].node < |b.nodes| && b.nodes[s.refs[target].node].Matched()
    requires r !in b.nodes[s.refs[target].node].childRefNames
    requires forall m :: 0 <= m < |s.nodes| && r in s.nodes[m].childRefNames ==> m == n
    ensures Moving(s, Naming(Counting(Reparenting(b, r, target), target, 1), s.refs[target].node, r, new_),
                   target, new_, moved + {r})
  {
    hide MovingName;
    var e := Naming(Counting(Reparenting(b, r, target), target, 1), s.refs[target].node, r, new_);
    forall m, x | 0 <= m < |s.nodes|
      ensures MovingName(s, e, target, new_, moved + {r}, m, x)
    {
      assert MovingName(s, a, target, new_, moved, m, x);
      MovingNameOneMore(s, a, b, n, r, target, new_, moved, m, x);
    }
  }

  lemma MovingNameOneMore(s: State, a: State, b: State, n: NodeId, r: RefId, target: RefId, new_: string,
                          moved: set<RefId>, m: NodeId, x: RefId)
    requires target < |s.refs| && |a.nodes| == |s.nodes| && |a.refs| == |s.refs| && m < |s.nodes|
    requires MovingName(s, a, target, new_, moved, m, x)
    requires n < |a.nodes| && a.nodes[n].Matched() && r in a.nodes[n].childRefNames && r !in moved
    requires OnlyCloses(Unnaming(a, n, r), b) && Live(b, r)
    requires s.refs[target].node < |b.nodes| && b.nodes[s.refs[target].node].Matched()
    requires r !in b.nodes[s.refs[target].node].childRefNames
    requires forall m :: 0 <= m < |s.nodes| && r in s.nodes[m].childRefNames ==> m == n
    ensures MovingName(s, Naming(Counting(Reparenting(b, r, target), target, 1), s.refs[target].node, r, new_),
                       target, new_, moved + {r}, m, x)
  {
    var u := Unnaming(a, n, r);
    assert ClosesName(u, b, m, x);
    assert Live(b, x) ==> Live(u, x);
    var e := Naming(Counting(Reparenting(b, r, target), target, 1), s.refs[target].node, r, new_);
    assert Live(e, x) <==> Live(b, x);
  }

  // ---- The end of a rename -------------------------------------------------

  ghost predicate FullyMoved(s: State, s': State, n: NodeId, old_: string, target: RefId, new_: string,
                             moved: set<RefId>)
    requires target < |s.refs| && n < |s.nodes|
  {
    && Moving(s, s', target, new_, moved) && moved <= s.nodes[n].RefsNamed(old_)
    && forall r :: r in s.nodes[n].RefsNamed(old_) && Live(s', r) ==> r in moved
  }

  /** The path node follows its references. */
  lemma MoveEnds(s: State, s': State, h: Hands, rank: seq<nat>, depth: seq<nat>, n: NodeId, old_: string,
                 target: RefId, new_: string, moved: set<RefId>)
    requires Good(s, h, rank, depth) && h.unplaced == {} && h.loose == {}
    requires n < |s.nodes| && target < |s.refs| && new_ !in s.nodes[s.refs[target].node].childNodes
    requires FullyMoved(s, s', n, old_, target, new_, moved)
    requires n == s.refs[target].node ==> old_ != new_
    requires Good(s', h.(unplaced := moved), rank, depth)
    requires old_ in s.nodes[n].childNodes ==> rank[s.nodes[n].childNodes[old_]] < rank[s.refs[target].node]
    ensures Good(s'.(nodes := MovedNodes(s'.nodes, n, old_, s.refs[target].node, new_)), h, rank, depth)
  {
    hide Counted, Named, Placed, MovingName;
    var e := s'.(nodes := MovedNodes(s'.nodes, n, old_, s.refs[target].node, new_));
    MoveEndCounts(s', h, moved, e);
    MoveEndPlaces(s, s', h, n, old_, target, new_, moved);
    assert s'.nodes[n].childNodes == s.nodes[n].childNodes;
  }

  lemma MoveEndCounts(s': State, h: Hands, moved: set<RefId>, e: State)
    requires Counted(s', h.(unplaced := moved)) && e == s'.(nodes := e.nodes)
    ensures Counted(e, h)
  {
    forall x | 0 <= x < |s'.refs|
      ensures e.refs[x].count == Uses(e, h, x)
    {
      assert ChildrenOf(e, h, x) == ChildrenOf(s', h.(unplaced := moved), x);
      assert FidsOf(e, x) == FidsOf(s', x);
    }
  }

  lemma MoveEndPlaces(s: State, s': State, h: Hands, n: NodeId, old_: string, target: RefId, new_: string,
                      moved: set<RefId>)
    requires Inv(s, h) && h.unplaced == {} && h.loose == {}
    requires n < |s.nodes| && target < |s.refs| && new_ !in s.nodes[s.refs[target].node].childNodes
    requires FullyMoved(s, s', n, old_, target, new_, moved)
    requires n == s.refs[target].node ==> old_ != new_
    requires Inv(s', h.(unplaced := moved))
    ensures var e := s'.(nodes := MovedNodes(s'.nodes, n, old_, s.refs[target].node, new_));
            Named(e, h) && Placed(e, h)
  {
    hide Counted, ClosedOnce;
    var h' := h.(unplaced := moved);
    var e := s'.(nodes := MovedNodes(s'.nodes, n, old_, s.refs[target].node, new_));
    forall m, x | 0 <= m < |e.nodes| && x in e.nodes[m].childRefNames
      ensures NamedAt(e, h, m, x)
    {
      assert NamedAt(s', h', m, x);
    }
    forall x | 0 <= x < |e.refs| && Lasting(e, x)
      ensures PlacedAt(e, x)
    {
      if x in moved {
        assert NamedAt(s, h, n, x) && PlacedAt(s, x);
        MovedPlace(s, s', n, old_, target, new_, moved, x);
      } else {
        assert PlacedAt(s', x);
        OtherPlace(s, s', n, old_, target, new_, moved, x);
      }
    }
  }

  lemma MovedPlace(s: State, s': State, n: NodeId, old_: string, target: RefId, new_: string, moved: set<RefId>,
                   x: RefId)
    requires n < |s.nodes| && target < |s.refs| && s.refs[target].node < |s.nodes|
    requires new_ !in s.nodes[s.refs[target].node].childNodes && s.nodes[n].Matched()
    requires FullyMoved(s, s', n, old_, target, new_, moved)
    requires x in moved && Lasting(s', x) && Live(s, x) && s.refs[x].parent.Some? && PlacedAt(s, x)
    requires s.refs[s.refs[x].parent.value].node == n
    ensures PlacedAt(s'.(nodes := MovedNodes(s'.nodes, n, old_, s.refs[target].node, new_)), x)
  {
    hide Moving;
    MovingBasics(s, s', target, new_, moved, x);
    assert MovingName(s, s', target, new_, moved, s.refs[target].node, x);
  }

  lemma OtherPlace(s: State, s': State, n: NodeId, old_: string, target: RefId, new_: string, moved: set<RefId>,
                   x: RefId)
    requires n < |s.nodes| && target < |s.refs| && s.refs[target].node < |s.nodes|
    requires new_ !in s.nodes[s.refs[target].node].childNodes && s.nodes[n].Matched()
    requires FullyMoved(s, s', n, old_, target, new_, moved)
    requires n == s.refs[target].node ==> old_ != new_
    requires x !in moved && Lasting(s', x) && PlacedAt(s', x)
    ensures PlacedAt(s'.(nodes := MovedNodes(s'.nodes, n, old_, s.refs[target].node, new_)), x)
  {
    hide Moving;
    MovingBasics(s, s', target, new_, moved, x);
    assert MovingName(s, s', target, new_, moved, s'.refs[s'.refs[x].parent.value].node, x);
  }

  lemma MovingBasics(s: State, s': State, target: RefId, new_: string, moved: set<RefId>, x: RefId)
    requires target < |s.refs| && Moving(s, s', target, new_, moved) && x < |s'.refs|
    ensures |s'.refs| == |s.refs| && |s'.nodes| == |s.nodes| && s'.refs[target].node == s.refs[target].node
    ensures s'.refs[x].node == s.refs[x].node && s'.refs[x].deleted == s.refs[x].deleted && (Live(s', x) ==> Live(s, x))
    ensures s'.refs[x].parent == if x in moved then Some(target) else s.refs[x].parent
    ensures forall n :: 0 <= n < |s.nodes| ==> s'.nodes[n].childNodes == s.nodes[n].childNodes
    ensures forall n :: 0 <= n < |s.nodes| ==> MovingName(s, s', target, new_, moved, n, x)
  {
  }

  // ---- The whole rename ----------------------------------------------------

  /** The child nodes after the rename. */
  ghost function RenamedKids(nodes: seq<PathNode>, m: NodeId, n: NodeId, old_: string, target: NodeId, new_: string)
    : map<string, NodeId>
    requires m < |nodes| && n < |nodes|
  {
    var kids := nodes[m].childNodes;
    var kept := kids - (if m == target then {new_} else {}) - (if m == n then {old_} else {});
    if m == target && old_ in nodes[n].childNodes then kept[new_ := nodes[n].childNodes[old_]] else kept
  }

  /** What had the new name is deleted, with all below. What had the old name has
      the target as parent and the new name, and what is below it comes along. */
  ghost predicate Renamed(s: State, rank: seq<nat>, n: NodeId, old_: string, target: RefId, new_: string, s': State)
    requires Ranked(s.nodes, rank) && n < |s.nodes| && target < |s.refs| && s.refs[target].node < |s.nodes|
  {
    var tn := s.refs[target].node;
    && |s'.refs| == |s.refs| && |s'.nodes| == |s.nodes| && s'.fids == s.fids
    && (forall r :: 0 <= r < |s.refs| && Live(s', r) ==>
          Live(s, r)
          && s'.refs[r] == s.refs[r].(count := s'.refs[r].count,
                                      deleted := s.refs[r].deleted || r in Doomed(s.nodes, rank, tn, new_),
                                      parent := if r in s.nodes[n].RefsNamed(old_) then Some(target)
                                                else s.refs[r].parent))
    && (forall m :: 0 <= m < |s.nodes| ==>
          s'.nodes[m].childNodes == RenamedKids(s.nodes, m, n, old_, tn, new_))
    && forall m, r :: 0 <= m < |s.nodes| ==> RenamedName(s, n, old_, tn, new_, s', m, r)
  }

  ghost predicate RenamedName(s: State, n: NodeId, old_: string, target: NodeId, new_: string, s': State, m: NodeId,
                              r: RefId)
    requires n < |s.nodes| && m < |s.nodes| == |s'.nodes|
  {
    var names, names', moved := s.nodes[m].childRefNames, s'.nodes[m].childRefNames, s.nodes[n].RefsNamed(old_);
    && (r in names' <==> Live(s', r) && if r in moved then m == target
                                        else r in names && !(m == target && names[r] == new_))
    && (r in names' && r in moved ==> names'[r] == new_)
    && (r in names' && r !in moved ==> names'[r] == names[r])
  }

  lemma RenameIsWhole(s: State, rank: seq<nat>, a: State, b: State, n: NodeId, old_: string, target: RefId,
                      new_: string, moved: set<RefId>)
    requires Ranked(s.nodes, rank) && n < |s.nodes| && target < |s.refs| && s.refs[target].node < |s.nodes|
    requires n == s.refs[target].node ==> old_ != new_
    requires AllMatched(s) && AllMatched(a) && NameDeleted(s, rank, s.refs[target].node, new_, a)
    requires FullyMoved(a, b, n, old_, target, new_, moved)
    ensures Renamed(s, rank, n, old_, target, new_,
                    b.(nodes := MovedNodes(b.nodes, n, old_, s.refs[target].node, new_)))
  {
    hide Doomed, Ranked, MovingName, RenamedName, RenamedKids;
    var tn := s.refs[target].node;
    var e := b.(nodes := MovedNodes(b.nodes, n, old_, tn, new_));
    assert a.nodes[n].RefsNamed(old_) == s.nodes[n].RefsNamed(old_);
    forall m, r | 0 <= m < |s.nodes|
      ensures RenamedName(s, n, old_, tn, new_, e, m, r)
    {
      assert MovingName(a, b, target, new_, moved, m, r);
      RenamedNameWhole(s, a, b, n, old_, target, new_, moved, m, r);
    }
    forall m | 0 <= m < |s.nodes|
      ensures e.nodes[m].childNodes == RenamedKids(s.nodes, m, n, old_, tn, new_)
    {
      RenamedKidsWhole(s.nodes, a.nodes, b.nodes, n, old_, tn, new_, m);
    }
  }

  lemma RenamedNameWhole(s: State, a: State, b: State, n: NodeId, old_: string, target: RefId, new_: string,
                         moved: set<RefId>, m: NodeId, r: RefId)
    requires n < |s.nodes| == |a.nodes| == |b.nodes| && m < |s.nodes| && |a.refs| == |s.refs|
    requires target < |s.refs| && s.refs[target].node < |s.nodes| && a.refs[target].node == s.refs[target].node
    requires new_ !in b.nodes[s.refs[target].node].childNodes
    requires moved <= s.nodes[n].RefsNamed(old_) && (r in s.nodes[n].RefsNamed(old_) && Live(b, r) ==> r in moved)
    requires MovingName(a, b, target, new_, moved, m, r)
    requires if m != s.refs[target].node then a.nodes[m] == s.nodes[m]
             else a.nodes[m].childRefNames == s.nodes[m].childRefNames - s.nodes[m].RefsNamed(new_)
                  && s.nodes[m].Matched()
    ensures RenamedName(s, n, old_, s.refs[target].node, new_,
                        b.(nodes := MovedNodes(b.nodes, n, old_, s.refs[target].node, new_)), m, r)
  {
  }

  lemma RenamedKidsWhole(nodes: seq<PathNode>, a: seq<PathNode>, b: seq<PathNode>, n: NodeId, old_: string, tn: NodeId,
                         new_: string, m: NodeId)
    requires n < |nodes| == |a| == |b| && m < |nodes| && tn < |nodes| && (n == tn ==> old_ != new_)
    requires forall k :: 0 <= k < |nodes| ==>
               b[k].childNodes == a[k].childNodes == nodes[k].childNodes - (if k == tn then {new_} else {})
    ensures MovedNodes(b, n, old_, tn, new_)[m].childNodes == RenamedKids(nodes, m, n, old_, tn, new_)
  {
  }
}
