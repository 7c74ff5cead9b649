/** Lemmas for the methods of the 9P server: what each part of a handler keeps, and
    what the parts add up to. */
module FidLemmas {
  import opened Words
  import opened PathNodes
  import opened FidState
  import opened FidSteps
  import opened FidTree
  import opened FidRename
  import opened FidWalk

  datatype Reply = Done | BadFid | Invalid | Refused

  // ---- Dropping references -------------------------------------------------

  /** A reference that the handler may drop: no loose one can be closed with it. */
  ghost predicate Droppable(h: Hands, depth: seq<nat>, r: RefId) {
    h.held[r] > 0 && r < |depth| && forall x :: x in h.loose ==> x < |depth| && depth[r] < depth[x]
  }

  /** Only the reference and its ancestors can be closed. */
  ghost predicate ClosesUpTo(s: State, s': State, depth: seq<nat>, r: RefId) {
    && OnlyCloses(s, s') && r < |depth| == |s.refs|
    && forall x :: 0 <= x < |depth| && Live(s, x) && !Live(s', x) ==> depth[x] <= depth[r]
  }

  lemma HeldCounts(s: State, h: Hands, r: RefId)
    requires Inv(s, h) && h.held[r] > 0
    ensures r < |s.refs| && s.refs[r].count >= 1
  {
  }

  /** A held reference is live and counted. */
  lemma DropReady(s: State, h: Hands, rank: seq<nat>, depth: seq<nat>, r: RefId)
    requires Good(s, h, rank, depth) && h.held[r] > 0
    ensures Live(s, r) && s.refs[r].count >= 1 && |depth| == |s.refs|
  {
    HeldCounts(s, h, r);
  }

  /** One of several uses is dropped. */
  lemma Dropped(s: State, h: Hands, rank: seq<nat>, depth: seq<nat>, r: RefId)
    requires Good(s, h, rank, depth) && h.held[r] > 0 && r < |s.refs| && s.refs[r].count > 1
    ensures Good(Counting(s, r, -1), Without(h, r), rank, depth) && OnlyCloses(s, Counting(s, r, -1))
  {
    hide Counted, Named, Placed, Ranked, OnlyCloses;
    ReleaseKeeps(s, h, r, rank, depth);
    CountsClose(s, h, Counting(s, r, -1));
  }

  ghost predicate CanClose(s: State, r: RefId) {
    && r < |s.refs| && s.refs[r].node < |s.nodes| && AllMatched(s)
    && (s.refs[r].parent.Some? ==>
          s.refs[r].parent.value < |s.refs| && s.refs[s.refs[r].parent.value].node < |s.nodes|)
  }

  /** The last use is dropped: the file is closed, and the parent may be dropped. */
  lemma ClosedReady(s: State, h: Hands, rank: seq<nat>, depth: seq<nat>, r: RefId)
    requires Good(s, h, rank, depth) && Droppable(h, depth, r) && r < |s.refs| && s.refs[r].count == 1
    ensures CanClose(s, r) && OnlyCloses(s, Closing(s, r)) && Good(Closing(s, r), PassedOn(s, h, r), rank, depth)
    ensures |depth| == |s.refs|
    ensures s.refs[r].parent.Some? ==>
              var p := s.refs[r].parent.value;
              && Droppable(PassedOn(s, h, r), depth, p) && depth[p] < depth[r]
              && Without(PassedOn(s, h, r), p) == Without(h, r)
  {
    hide Counted, ClosedOnce, Named, Placed, Ranked, OnlyCloses, Closing;
    HeldLives(s, h, r);
    CloseKeeps(s, h, r, rank, depth);
    CloseOnlyCloses(s, h, r);
    if s.refs[r].parent.Some? {
      var p := s.refs[r].parent.value;
      assert Without(PassedOn(s, h, r), p).held == Without(h, r).held;
    }
  }

  /** The table has the new reference; the handler has the earlier one. */
  lemma Inserted(s: State, h: Hands, fid: Fid, r: RefId, rank: seq<nat>, depth: seq<nat>)
    requires Good(s, h, rank, depth) && Live(s, r)
    ensures var t, h' := Counting(s, r, 1).(fids := s.fids[fid := r]), h.(young := h.young - {r});
            && OnlyCloses(s.(fids := s.fids[fid := r]), t)
            && (fid in s.fids ==> s.fids[fid] < |depth| && Good(t, Holding(h', s.fids[fid]), rank, depth))
            && (fid !in s.fids ==> Good(t, h', rank, depth))
  {
    hide Good, OnlyCloses;
    var fids, h' := s.fids[fid := r], h.(young := h.young - {r});
    var h1 := Holding(h, r).(young := h.young - {r});
    TakeKeeps(s, h, r, rank, depth);
    var h2 := if fid in s.fids then Holding(Without(h1, r), s.fids[fid]) else Without(h1, r);
    assert Without(h1, r) == h';
    TableKeeps(Counting(s, r, 1), h1, fid, fids, h2, rank, depth);
    NamedAndMatched(s, h, rank, depth);
    TableKeepsNames(s, h, fids);
    CountsClose(s.(fids := fids), h, Counting(s, r, 1).(fids := fids));
    if fid in s.fids {
      GoodFidLives(s, h, rank, depth, fid);
      InDepth(s, h, rank, depth);
    }
  }

  lemma CountsClose(s: State, h: Hands, s': State)
    requires Named(s, h) && SameFiles(s, s') && s'.fids == s.fids
    ensures OnlyCloses(s, s')
  {
    forall n, r | 0 <= n < |s.nodes|
      ensures ClosesName(s, s', n, r)
    {
      assert r in s.nodes[n].childRefNames ==> NamedAt(s, h, n, r);
    }
  }

  lemma TableKeepsNames(s: State, h: Hands, fids: map<Fid, RefId>)
    requires Named(s, h)
    ensures Named(s.(fids := fids), h)
  {
    forall n, r | 0 <= n < |s.nodes| && r in s.nodes[n].childRefNames
      ensures NamedAt(s.(fids := fids), h, n, r)
    {
      assert NamedAt(s, h, n, r);
    }
  }

  // ---- Deleting -----------------------------------------------------------

  ghost predicate NamesInRange(s: State) {
    forall n, r :: 0 <= n < |s.nodes| && r in s.nodes[n].childRefNames ==> r < |s.refs|
  }

  lemma NamedInRange(s: State, h: Hands)
    requires Named(s, h)
    ensures NamesInRange(s)
  {
    forall n, r | 0 <= n < |s.nodes| && r in s.nodes[n].childRefNames
      ensures r < |s.refs|
    {
      assert NamedAt(s, h, n, r);
    }
  }

  lemma MarkingTwice(refs: seq<FidRef>, a: set<RefId>, b: set<RefId>)
    ensures Marking(Marking(refs, a), b) == Marking(refs, a + b)
  {
  }

  lemma KidRank(nodes: seq<PathNode>, rank: seq<nat>, n: NodeId, k: string)
    requires Ranked(nodes, rank) && n < |nodes| && k in nodes[n].childNodes
    ensures nodes[n].childNodes[k] < |nodes| == |rank| && rank[nodes[n].childNodes[k]] < rank[n]
  {
  }

  /** The references below some of the node's children are done. */
  ghost predicate DoneBelow(nodes: seq<PathNode>, rank: seq<nat>, n: NodeId, kids: set<string>, done: set<RefId>) {
    && Ranked(nodes, rank) && n < |nodes| && nodes[n].childRefNames.Keys <= done <= RefsBelow(nodes, rank, n)
    && kids <= nodes[n].childNodes.Keys
    && forall k :: k in kids ==> RefsBelow(nodes, rank, nodes[n].childNodes[k]) <= done
  }

  lemma OwnRefsBelow(nodes: seq<PathNode>, rank: seq<nat>, n: NodeId)
    requires Ranked(nodes, rank) && n < |nodes|
    ensures DoneBelow(nodes, rank, n, {}, nodes[n].childRefNames.Keys)
  {
    forall r | r in nodes[n].childRefNames.Keys
      ensures r in RefsBelow(nodes, rank, n)
    {
      RefsBelowOf(nodes, rank, n, r);
    }
  }

  lemma MoreDoneBelow(nodes: seq<PathNode>, rank: seq<nat>, n: NodeId, kids: set<string>, done: set<RefId>, k: string)
    requires DoneBelow(nodes, rank, n, kids, done) && k in nodes[n].childNodes
    ensures DoneBelow(nodes, rank, n, kids + {k}, done + RefsBelow(nodes, rank, nodes[n].childNodes[k]))
  {
    forall r | r in RefsBelow(nodes, rank, nodes[n].childNodes[k])
      ensures r in RefsBelow(nodes, rank, n)
    {
      RefsBelowOf(nodes, rank, n, r);
    }
  }

  lemma AllDoneBelow(nodes: seq<PathNode>, rank: seq<nat>, n: NodeId, done: set<RefId>)
    requires n < |nodes| && DoneBelow(nodes, rank, n, nodes[n].childNodes.Keys, done)
    ensures done == RefsBelow(nodes, rank, n)
  {
    forall r | r in RefsBelow(nodes, rank, n)
      ensures r in done
    {
      RefsBelowOf(nodes, rank, n, r);
    }
  }

  /** Some references lost their name in the node and are marked. */
  ghost predicate Unnamed(a: State, s: State, n: NodeId, gone: set<RefId>)
  {
    && n < |a.nodes| == |s.nodes| && (forall k :: 0 <= k < |a.nodes| && k != n ==> s.nodes[k] == a.nodes[k])
    && s.nodes[n].Matched() && s.nodes[n].childNodes == a.nodes[n].childNodes
    && s.nodes[n].childRefNames == a.nodes[n].childRefNames - gone
    && s.refs == Marking(a.refs, gone) && s.fids == a.fids
  }

  lemma UnnamedMore(a: State, s: State, n: NodeId, name: string, gone: set<RefId>, r: RefId)
    requires n < |a.nodes| && a.nodes[n].Matched() && NamesInRange(a)
    requires Unnamed(a, s, n, gone) && r in s.nodes[n].RefsNamed(name)
    ensures r < |s.refs| && r in a.nodes[n].RefsNamed(name)
    ensures var u := Unnaming(s, n, r);
            var v := u.(refs := s.refs[r := s.refs[r].(deleted := true)]);
            Unnamed(a, v, n, gone + {r}) && v.nodes[n].RefsNamed(name) == s.nodes[n].RefsNamed(name) - {r}
  {
    assert s.refs[r := s.refs[r].(deleted := true)] == Marking(a.refs, gone + {r});
  }

  // ---- Moving references --------------------------------------------------

  ghost predicate Deeper(s: State, depth: seq<nat>, target: RefId, r: RefId) {
    target < |depth| == |s.refs| && r < |depth| && depth[target] < depth[r]
  }

  ghost predicate Attaches(s: State, r: RefId, target: RefId, new_: string, s': State) {
    && r < |s.refs| && target < |s.refs| && s.refs[target].node < |s.nodes|
    && s.nodes[s.refs[target].node].Matched() && r !in s.nodes[s.refs[target].node].childRefNames
    && s' == Naming(Counting(Reparenting(s, r, target), target, 1), s.refs[target].node, r, new_)
  }

  ghost predicate MovingFrom(a: State, s: State, n: NodeId, target: RefId, new_: string, moved: set<RefId>) {
    target < |a.refs| && n < |a.nodes| && a.refs[target].node < |a.nodes| && Moving(a, s, target, new_, moved)
  }

  /** Unnaming and closing leave a file's node, parent and mark. */
  lemma StillThere(s: State, n: NodeId, r: RefId, s': State, x: RefId)
    requires n < |s.nodes| && s.nodes[n].Matched() && r in s.nodes[n].childRefNames
    requires OnlyCloses(Unnaming(s, n, r), s') && x < |s.refs|
    ensures |s'.refs| == |s.refs| && |s'.nodes| == |s.nodes|
    ensures s'.refs[x] == s.refs[x].(count := s'.refs[x].count, closed := s'.refs[x].closed)
  {
  }

  lemma MovingSame(a: State, s: State, n: NodeId, target: RefId, new_: string, moved: set<RefId>, r: RefId)
    requires MovingFrom(a, s, n, target, new_, moved)
    ensures |s.refs| == |a.refs| && |s.nodes| == |a.nodes| && s.refs[target].node == a.refs[target].node
    ensures s.refs[target].deleted == a.refs[target].deleted
    ensures forall m :: 0 <= m < |a.nodes| ==> s.nodes[m].childNodes == a.nodes[m].childNodes
    ensures r in s.nodes[n].childRefNames && r !in moved ==> r in a.nodes[n].childRefNames
  {
    assert MovingName(a, s, target, new_, moved, n, r);
  }

  lemma NamedOnce(s: State, h: Hands, n: NodeId, r: RefId)
    requires Named(s, h) && n < |s.nodes| && r in s.nodes[n].childRefNames
    ensures forall m :: 0 <= m < |s.nodes| && r in s.nodes[m].childRefNames ==> m == n
  {
    assert NamedAt(s, h, n, r);
    forall m | 0 <= m < |s.nodes| && r in s.nodes[m].childRefNames
      ensures m == n
    {
      assert NamedAt(s, h, m, r);
    }
  }

  /** The target is a live file that is not deleted, the move is no move to the
      same place, and the target's node is not below the name that is moved. */
  ghost predicate MayMove(s: State, rank: seq<nat>, n: NodeId, old_: string, target: RefId, new_: string) {
    && n < |s.nodes| && Live(s, target) && !s.refs[target].deleted && Ranked(s.nodes, rank)
    && s.refs[target].node < |s.nodes| && !(n == s.refs[target].node && old_ == new_)
    && (old_ in s.nodes[n].childNodes ==> s.refs[target].node !in Below(s.nodes, rank, s.nodes[n].childNodes[old_]))
  }

  /** The target is not deleted with what has the new name. */
  lemma TargetLasts(s: State, h: Hands, rank: seq<nat>, target: RefId, new_: string)
    requires Inv(s, h) && Ranked(s.nodes, rank) && h.loose == {} && h.unplaced == {}
    requires Live(s, target) && !s.refs[target].deleted
    ensures target !in Doomed(s.nodes, rank, s.refs[target].node, new_)
  {
    hide Counted, ClosedOnce, Below;
    var tn := s.refs[target].node;
    assert target in s.nodes[tn].childRefNames ==> NamedAt(s, h, tn, target);
    assert Lasting(s, target) ==> PlacedAt(s, target);
    if new_ in s.nodes[tn].childNodes && target in RefsBelow(s.nodes, rank, s.nodes[tn].childNodes[new_]) {
      var top := s.nodes[tn].childNodes[new_];
      var m :| m in Below(s.nodes, rank, top) && m < |s.nodes| && target in s.nodes[m].childRefNames;
      assert NamedAt(s, h, m, target);
      BelowRank(s.nodes, rank, top, m);
    }
  }

  /** Ranks and depths with which everything can be moved. */
  lemma ReadyToMove(s: State, a: State, h: Hands, rank: seq<nat>, depth: seq<nat>, n: NodeId, old_: string,
                    target: RefId, new_: string)
    returns (rank': seq<nat>, depth': seq<nat>)
    requires Good(s, h, rank, depth) && Good(a, h, rank, depth) && h.loose == {} && h.unplaced == {}
    requires MayMove(s, rank, n, old_, target, new_) && NameDeleted(s, rank, s.refs[target].node, new_, a)
    ensures Good(a, h, rank', depth') && AllDeeper(a, depth', n, old_, target)
    ensures !a.refs[target].deleted
    ensures old_ in a.nodes[n].childNodes ==> rank'[a.nodes[n].childNodes[old_]] < rank'[a.refs[target].node]
  {
    hide Counted, ClosedOnce, Named, Placed, Below, Doomed;
    TargetLasts(s, h, rank, target, new_);
    var tn := s.refs[target].node;
    rank' := rank;
    if old_ in a.nodes[n].childNodes {
      var top := a.nodes[n].childNodes[old_];
      if tn in Below(a.nodes, rank, top) {
        BelowShrinks(s.nodes, rank, a.nodes, top, tn);
        assert false;
      }
      RaisedRanks(a.nodes, rank, top, tn);
      rank' := Raised(a.nodes, rank, top);
    }
    depth' := DepthToMove(a, h, rank, depth, n, old_, target);
  }

  lemma DepthToMove(a: State, h: Hands, rank: seq<nat>, depth: seq<nat>, n: NodeId, old_: string, target: RefId)
    returns (depth': seq<nat>)
    requires Good(a, h, rank, depth) && h.loose == {} && h.unplaced == {} && n < |a.nodes|
    requires Live(a, target) && !a.refs[target].deleted
    requires old_ in a.nodes[n].childNodes ==>
               a.refs[target].node !in Below(a.nodes, rank, a.nodes[n].childNodes[old_])
    ensures Tidy(a, h, depth') && AllDeeper(a, depth', n, old_, target)
  {
    hide Counted, ClosedOnce, Placed, Below, Ranked;
    var top := a.nodes[n].RefsNamed(old_);
    if Under(a, h, depth, target, top) {
      UnderIsBelow(a, h, rank, depth, n, old_, target);
      assert false;
    }
    depth' := Deepened(a, h, depth, top, depth[target] + 1);
    DeepenedIsTidy(a, h, depth, top, depth[target] + 1);
    forall r | r in top
      ensures Deeper(a, depth', target, r)
    {
      assert NamedAt(a, h, n, r);
    }
  }

  /** The references with the old name are deeper than the target. */
  ghost predicate AllDeeper(s: State, depth: seq<nat>, n: NodeId, old_: string, target: RefId) {
    n < |s.nodes| && forall r :: r in s.nodes[n].RefsNamed(old_) ==> Deeper(s, depth, target, r)
  }

  lemma NamedAndMatched(s: State, h: Hands, rank: seq<nat>, depth: seq<nat>)
    requires Good(s, h, rank, depth)
    ensures Named(s, h) && forall n :: 0 <= n < |s.nodes| ==> s.nodes[n].Matched()
  {
  }

  lemma MovingNone(s: State, h: Hands, target: RefId, new_: string)
    requires Named(s, h) && target < |s.refs|
    ensures Moving(s, s, target, new_, {})
  {
    forall n, r | 0 <= n < |s.nodes|
      ensures MovingName(s, s, target, new_, {}, n, r)
    {
      assert r in s.nodes[n].childRefNames ==> NamedAt(s, h, n, r);
    }
  }

  /** A reference that has the old name still was not moved. */
  lemma StillToMove(a: State, s: State, n: NodeId, old_: string, target: RefId, new_: string, moved: set<RefId>,
                    r: RefId)
    requires MovingFrom(a, s, n, target, new_, moved) && a.nodes[n].Matched()
    requires |s.nodes| == |a.nodes| && s.nodes[n].Matched() && r in s.nodes[n].RefsNamed(old_)
    requires n == a.refs[target].node ==> old_ != new_
    ensures r !in moved && r in a.nodes[n].RefsNamed(old_)
  {
    assert MovingName(a, s, target, new_, moved, n, r);
  }

  lemma AllMoved(a: State, s: State, n: NodeId, old_: string, target: RefId, new_: string, moved: set<RefId>)
    requires MovingFrom(a, s, n, target, new_, moved) && a.nodes[n].Matched() && moved <= a.nodes[n].RefsNamed(old_)
    requires |s.nodes| == |a.nodes| && s.nodes[n].Matched() && s.nodes[n].RefsNamed(old_) == {}
    ensures FullyMoved(a, s, n, old_, target, new_, moved)
  {
    forall r | r in a.nodes[n].RefsNamed(old_) && Live(s, r)
      ensures r in moved
    {
      assert MovingName(a, s, target, new_, moved, n, r);
    }
  }

  // ---- New references -----------------------------------------------------

  ghost predicate CanBear(s: State, w: RefId) {
    && w < |s.refs| && s.refs[w].node < |s.nodes| && s.nodes[s.refs[w].node].Matched()
    && |s.refs| !in s.nodes[s.refs[w].node].childRefNames
  }

  /** A new child of a reference, with a name and a node but no count yet. */
  ghost function Born(s: State, w: RefId, name: string, mode: Mode, open: bool): State
    requires CanBear(s, w)
  {
    var n := s.refs[w].node;
    var (s1, node) := WithNode(s, n, name);
    Naming(Adding(s1, FidRef(0, Some(w), node, mode, open, false, 0)), n, |s.refs|, name)
  }

  ghost predicate BornBelow(s: State, w: RefId, name: string, mode: Mode, open: bool, x: RefId) {
    && Live(s, x) && s.refs[x].parent == Some(w) && s.refs[x].mode == mode && s.refs[x].open == open
    && !s.refs[x].deleted && w < |s.refs| && s.refs[w].node < |s.nodes|
    && x in s.nodes[s.refs[w].node].childRefNames && s.nodes[s.refs[w].node].childRefNames[x] == name
  }

  lemma BornKeeps(s: State, h: Hands, w: RefId, name: string, mode: Mode, open: bool, rank: seq<nat>, depth: seq<nat>)
    requires Good(s, h, rank, depth) && h.held[w] > 0 && h.loose == {} && h.unplaced == {}
    requires w < |s.refs| && !s.refs[w].deleted
    ensures CanBear(s, w) && w < |depth| && |rank| == |s.nodes|
    ensures var t := Born(s, w, name, mode, open);
            && Grown(s, t) && Keeps(s, t) && BornBelow(t, w, name, mode, open, |s.refs|)
            && Good(t, Without(h, w).(young := h.young + {|s.refs|}), WithNodeRank(s, s.refs[w].node, name, rank),
                    depth + [depth[w] + 1])
  {
    hide Counted, ClosedOnce, Placed, Tidy, Ranked;
    var n := s.refs[w].node;
    WithNodeKeeps(s, h, n, name, rank, depth);
    WithNodeGrows(s, h, n, name);
    var (s1, node) := WithNode(s, n, name);
    var ref := FidRef(0, Some(w), node, mode, open, false, 0);
    BearBelow(s1, h, w, name, ref, WithNodeRank(s, n, name, rank), depth);
    NamingGrows(s1, h, n, |s.refs|, name, ref);
    GrownTwice(s, s1, Naming(Adding(s1, ref), n, |s.refs|, name));
  }

  lemma BearBelow(s: State, h: Hands, w: RefId, name: string, ref: FidRef, rank: seq<nat>, depth: seq<nat>)
    requires Good(s, h, rank, depth) && h.held[w] > 0 && h.loose == {} && h.unplaced == {}
    requires w < |s.refs| && !s.refs[w].deleted && ref == FidRef(0, Some(w), ref.node, ref.mode, ref.open, false, 0)
    requires s.refs[w].node < |s.nodes| && name in s.nodes[s.refs[w].node].childNodes
    requires s.nodes[s.refs[w].node].childNodes[name] == ref.node
    ensures |s.refs| !in s.nodes[s.refs[w].node].childRefNames && w < |depth|
    ensures Good(Naming(Adding(s, ref), s.refs[w].node, |s.refs|, name),
                 Without(h, w).(young := h.young + {|s.refs|}), rank, depth + [depth[w] + 1])
  {
    hide Counted, ClosedOnce, Named, Placed;
    var x := |s.refs|;
    AddKeeps(s, h, ref, rank, depth, depth[w] + 1);
    var h1 := Adopting(h, x);
    LinkKeeps(Adding(s, ref), h1, x, w, name, {}, rank, depth + [depth[w] + 1]);
    assert Given(h1, x, w, {}) == Without(h, w).(young := h.young + {x});
  }

  lemma BearRoot(s: State, h: Hands, ref: FidRef, rank: seq<nat>, depth: seq<nat>)
    requires Good(s, h, rank, depth) && h == NO_HANDS.(held := h.held)
    requires ref == FidRef(0, None, ref.node, ref.mode, ref.open, ref.deleted, 0) && ref.node < |s.nodes|
    ensures Good(Adding(s, ref), h.(young := {|s.refs|}), rank, depth + [0])
  {
    hide Counted, ClosedOnce, Named, Placed, Ranked, Tidy;
    var x := |s.refs|;
    AddKeeps(s, h, ref, rank, depth, 0);
    RootKeeps(Adding(s, ref), Adopting(h, x), x, rank, depth + [0]);
    assert Adopting(h, x).(loose := Adopting(h, x).loose - {x}) == h.(young := {x});
  }

  ghost predicate CanClone(s: State, ref: RefId) {
    && ref < |s.refs| && s.refs[ref].parent.Some? && s.refs[ref].parent.value < |s.refs|
    && var n := s.refs[s.refs[ref].parent.value].node;
       n < |s.nodes| && (!s.refs[ref].deleted ==>
         s.nodes[n].Matched() && ref in s.nodes[n].childRefNames && |s.refs| !in s.nodes[n].childRefNames)
  }

  /** The state after a reference with a parent is cloned. */
  ghost function Cloned(s: State, ref: RefId, copy: FidRef): State
    requires CanClone(s, ref) && copy.deleted == s.refs[ref].deleted
  {
    var p, x := s.refs[ref].parent.value, |s.refs|;
    var n := s.refs[p].node;
    var s1 := Adding(s, copy);
    Counting(if copy.deleted then s1 else Naming(s1, n, x, s.nodes[n].childRefNames[ref]), p, 1)
  }

  lemma BearClone(s: State, h: Hands, ref: RefId, copy: FidRef, rank: seq<nat>, depth: seq<nat>)
    requires Good(s, h, rank, depth) && h == NO_HANDS.(held := h.held) && Live(s, ref) && s.refs[ref].parent.Some?
    requires copy == s.refs[ref].(count := 0, closed := 0, open := false)
    ensures CanClone(s, ref) && s.refs[ref].parent.value < |depth|
    ensures Good(Cloned(s, ref, copy), h.(young := {|s.refs|}), rank, depth + [depth[s.refs[ref].parent.value] + 1])
  {
    hide Inv, Ranked, Tidy;
    var p, x := s.refs[ref].parent.value, |s.refs|;
    CloneTaken(s, h, ref, copy, rank, depth);
    var s2, h2, depth' := Counting(Adding(s, copy), p, 1), Holding(Adopting(h, x), p), depth + [depth[p] + 1];
    if copy.deleted {
      LinkDeletedKeeps(s2, h2, x, p, rank, depth');
    } else {
      var n := s.refs[p].node;
      LinkKeeps(s2, h2, x, p, s.nodes[n].childRefNames[ref], {}, rank, depth');
      assert Naming(s2, n, x, s.nodes[n].childRefNames[ref]) == Cloned(s, ref, copy);
    }
    assert Given(h2, x, p, {}) == h.(young := {x});
  }

  /** The copy is there and its parent taken, but there is no link. */
  lemma CloneTaken(s: State, h: Hands, ref: RefId, copy: FidRef, rank: seq<nat>, depth: seq<nat>)
    requires Good(s, h, rank, depth) && h == NO_HANDS.(held := h.held) && Live(s, ref) && s.refs[ref].parent.Some?
    requires copy == s.refs[ref].(count := 0, closed := 0, open := false)
    ensures var p, x := s.refs[ref].parent.value, |s.refs|;
            && CanClone(s, ref) && p < |depth| && (!copy.deleted ==> PlacedAt(s, ref))
            && var s2, h2 := Counting(Adding(s, copy), p, 1), Holding(Adopting(h, x), p);
               var depth' := depth + [depth[p] + 1];
               Good(s2, h2, rank, depth') && Linkable(s2, h2, x, p, depth')
  {
    hide Counted, ClosedOnce, Ranked;
    var p, x := s.refs[ref].parent.value, |s.refs|;
    var depth' := depth + [depth[p] + 1];
    AddKeeps(s, h, copy, rank, depth, depth[p] + 1);
    ParentLives(s, h, ref);
    TakeKeeps(Adding(s, copy), Adopting(h, x), p, rank, depth');
    assert Adopting(h, x).young - {p} == Adopting(h, x).young;
    assert Holding(Adopting(h, x), p).(young := Adopting(h, x).young - {p}) == Holding(Adopting(h, x), p);
  }

  lemma CloneKeepsTree(s: State, ref: RefId, copy: FidRef)
    requires CanClone(s, ref) && copy.deleted == s.refs[ref].deleted && copy.parent.Some?
    ensures KeepsTree(s, Cloned(s, ref, copy))
  {
    hide Treelike;
    AddingKeepsTree(s, copy);
    SameTree(Adding(s, copy), Cloned(s, ref, copy));
  }

  lemma CloneGrows(s: State, h: Hands, ref: RefId, copy: FidRef)
    requires Named(s, h) && CanClone(s, ref) && copy.deleted == s.refs[ref].deleted && copy.parent.Some?
    ensures Grown(s, Cloned(s, ref, copy))
  {
    hide KeepsTree;
    var s' := Cloned(s, ref, copy);
    CloneKeepsTree(s, ref, copy);
    forall m, x | 0 <= m < |s.nodes| && 0 <= x < |s.refs|
      ensures GrownName(s, s', m, x)
    {
      assert x in s.nodes[m].childRefNames ==> NamedAt(s, h, m, x);
    }
  }

  lemma CloneKeeps(s: State, h: Hands, ref: RefId, copy: FidRef, rank: seq<nat>, depth: seq<nat>)
    requires Good(s, h, rank, depth) && h == NO_HANDS.(held := h.held) && Live(s, ref)
    requires copy == s.refs[ref].(count := 0, closed := 0, open := false)
    ensures s.refs[ref].parent.None? ==> CloneMade(s, h, ref, Adding(s, copy), rank, depth + [0])
    ensures s.refs[ref].parent.Some? ==> CanClone(s, ref) && s.refs[ref].parent.value < |depth|
    ensures s.refs[ref].parent.Some? ==>
              CloneMade(s, h, ref, Cloned(s, ref, copy), rank, depth + [depth[s.refs[ref].parent.value] + 1])
  {
    hide Counted, ClosedOnce, Placed, Tidy, Ranked;
    if s.refs[ref].parent.None? {
      BearRoot(s, h, copy, rank, depth);
      AddingGrows(s, h, copy);
    } else {
      BearClone(s, h, ref, copy, rank, depth);
      CloneGrows(s, h, ref, copy);
    }
  }

  ghost predicate CloneMade(s: State, h: Hands, ref: RefId, t: State, rank: seq<nat>, depth: seq<nat>) {
    && Grown(s, t) && Keeps(s, t) && CloneOf(s, ref, t, |s.refs|)
    && Good(t, h.(young := {|s.refs|}), rank, depth)
  }

  lemma CloneCounted(s: State, ref: RefId, t: State, x: RefId)
    requires CloneOf(s, ref, t, x) && Keeps(s, t)
    ensures CloneOf(s, ref, Counting(t, x, 1), x) && Keeps(s, Counting(t, x, 1))
  {
  }

  lemma CountsGrow(s: State, s': State, r: RefId)
    requires Grown(s, s') && r < |s'.refs|
    ensures Grown(s, Counting(s', r, 1))
  {
    hide Treelike;
    SameTree(s', Counting(s', r, 1));
    forall m, x | 0 <= m < |s.nodes| && 0 <= x < |s.refs|
      ensures GrownName(s, Counting(s', r, 1), m, x)
    {
      assert GrownName(s, s', m, x);
    }
  }

  // ---- Walking ------------------------------------------------------------

  lemma GrownAlready(s: State, h: Hands, rank: seq<nat>, depth: seq<nat>)
    requires Good(s, h, rank, depth)
    ensures Grown(s, s)
  {
    CountsClose(s, h, s);
    ClosingIsGrowth(s, s);
  }

  /** The walk has come so far, to a file of the type that the backend gave. */
  ghost predicate WalkedSoFar(a: State, s: State, ref: RefId, names: seq<string>, answers: nat -> Option<Mode>,
                              w: RefId)
  {
    && Live(s, w) && Walked(s, ref, names, w) && ref < |a.refs|
    && if names == [] then
         w == ref && s.refs[w].mode == a.refs[ref].mode && s.refs[w].deleted == a.refs[ref].deleted
       else
         |a.refs| <= w && !s.refs[w].deleted && EndIs(s, names, answers, w)
         && a.refs[ref].mode.Directory? && !a.refs[ref].deleted
  }

  /** The end of a walk is a file of the type that the backend gave, not open yet. */
  ghost predicate EndIs(s: State, names: seq<string>, answers: nat -> Option<Mode>, x: RefId) {
    names != [] ==> x < |s.refs| && !s.refs[x].open && answers(|names| - 1) == Some(s.refs[x].mode)
  }

  lemma WalkBegins(a: State, ref: RefId, answers: nat -> Option<Mode>)
    requires Live(a, ref)
    ensures WalkedSoFar(a, Counting(a, ref, 1), ref, [], answers, ref)
  {
  }

  lemma WalkFails(a: State, b: State, s: State, depth: seq<nat>, w: RefId)
    requires Grown(a, b) && ClosesUpTo(b, s, depth, w)
    ensures Grown(a, s)
  {
    ClosingIsGrowth(b, s);
    GrownTwice(a, b, s);
  }

  lemma WalkedOn(a: State, b: State, c: State, ref: RefId, names: seq<string>, i: nat, answers: nat -> Option<Mode>,
                 w: RefId, y: RefId)
    requires Grown(a, b) && Grown(b, c) && Keeps(b, c) && i < |names| && answers(i).Some?
    requires BornBelow(c, w, names[i], answers(i).value, false, y) && y == |b.refs|
    requires WalkedSoFar(a, b, ref, names[..i], answers, w) && b.refs[w].mode.Directory? && !b.refs[w].deleted
    ensures Grown(a, c) && WalkedSoFar(a, c, ref, names[..i + 1], answers, y)
  {
    hide Grown;
    GrownTwice(a, b, c);
    WalkedStays(b, c, ref, names[..i], w);
    assert names[..i + 1][..i] == names[..i];
    GrownSize(a, b);
  }

  lemma InDepth(s: State, h: Hands, rank: seq<nat>, depth: seq<nat>)
    requires Good(s, h, rank, depth)
    ensures |depth| == |s.refs|
  {
  }

  lemma GrownSize(s: State, s': State)
    requires Grown(s, s')
    ensures |s.refs| <= |s'.refs|
  {
  }

  // ---- Ends of handlers ----------------------------------------------------

  lemma GoodHeldLives(s: State, h: Hands, rank: seq<nat>, depth: seq<nat>, r: RefId)
    requires Good(s, h, rank, depth) && r in h.held
    ensures Live(s, r)
  {
  }

  lemma GoodFidLives(s: State, h: Hands, rank: seq<nat>, depth: seq<nat>, f: Fid)
    requires Good(s, h, rank, depth) && f in s.fids
    ensures Live(s, s.fids[f])
  {
    FidLives(s, h, f);
  }

  lemma ClosingSize(s: State, s': State)
    requires OnlyCloses(s, s')
    ensures |s'.refs| == |s.refs| && s'.fids == s.fids
  {
  }

  /** A walk has put its end under the FID. */
  ghost predicate WalkInstalled(s: State, ref: RefId, newFid: Fid, names: seq<string>, answers: nat -> Option<Mode>,
                                s': State)
  {
    && newFid in s'.fids && s'.fids == s.fids[newFid := s'.fids[newFid]] && |s.refs| <= s'.fids[newFid]
    && EndIs(s', names, answers, s'.fids[newFid])
    && if names == [] then CloneOf(s, ref, s', s'.fids[newFid]) else Walked(s', ref, names, s'.fids[newFid])
  }

  lemma WalkEnds(a: State, b: State, c: State, s: State, rank: seq<nat>, depth: seq<nat>, ref: RefId, newFid: Fid,
                 names: seq<string>, answers: nat -> Option<Mode>, x: RefId)
    requires ref < |a.refs| && b == Counting(a, ref, 1) && Grown(a, c) && |a.refs| <= x < |c.refs|
    requires OnlyCloses(c.(fids := c.fids[newFid := x]), s) && Good(s, NO_HANDS, rank, depth) && Live(s, x)
    requires EndIs(c, names, answers, x)
    requires if names == [] then CloneOf(b, ref, c, x) else Walked(c, ref, names, x)
    ensures Grown(a.(fids := s.fids), s) && WalkInstalled(a, ref, newFid, names, answers, s)
  {
    hide Inv, Tidy, Ranked, Grown, OnlyCloses, Walked, CloneOf;
    var fids := c.fids[newFid := x];
    ClosingSize(c.(fids := fids), s);
    GrownSize(a, c);
    ClosingIsGrowth(c.(fids := fids), s);
    GrownWithFids(a, c, fids);
    GrownTwice(a.(fids := fids), c.(fids := fids), s);
    GrownRef(c.(fids := fids), s, x);
    if names == [] {
      CloneFromCounts(a, ref, c, x, fids);
      CloneStays(a, ref, c.(fids := fids), s, x);
    } else {
      WalkedWithFids(c, ref, names, x, fids);
      WalkedLives(c.(fids := fids), s, NO_HANDS, ref, names, x);
    }
  }

  lemma GrownWithFids(s: State, s': State, fids: map<Fid, RefId>)
    requires Grown(s, s')
    ensures Grown(s.(fids := fids), s'.(fids := fids)) && s'.fids == s.fids
  {
    hide Treelike;
    SameTree(s.(fids := fids), s);
    SameTree(s', s'.(fids := fids));
    forall n, r | 0 <= n < |s.nodes| && 0 <= r < |s.refs|
      ensures GrownName(s.(fids := fids), s'.(fids := fids), n, r)
    {
      assert GrownName(s, s', n, r);
    }
  }

  lemma {:induction false} WalkedWithFids(s: State, ref: RefId, names: seq<string>, x: RefId, fids: map<Fid, RefId>)
    requires Walked(s, ref, names, x)
    ensures Walked(s.(fids := fids), ref, names, x)
    decreases |names|
  {
    if names != [] {
      WalkedWithFids(s, ref, names[..|names| - 1], s.refs[x].parent.value, fids);
    }
  }

  lemma CloneFromCounts(s: State, ref: RefId, s': State, x: RefId, fids: map<Fid, RefId>)
    requires ref < |s.refs| && CloneOf(Counting(s, ref, 1), ref, s', x)
    ensures CloneOf(s, ref, s'.(fids := fids), x)
  {
  }

  predicate RootWalks(mode: Mode, names: seq<string>, answers: nat -> Option<Mode>) {
    && (forall i :: 0 <= i < |names| ==> SafeName(names[i])) && mode.Directory?
    && (forall i :: 0 <= i < |names| ==> answers(i).Some?)
    && forall i :: 0 <= i < |names| - 1 ==> answers(i) == Some(Directory)
  }

  /** The FID is at the end of a walk from a new root. */
  ghost predicate Attached(s: State, fid: Fid, names: seq<string>, mode: Mode, answers: nat -> Option<Mode>,
                           root: RefId, s': State)
  {
    && fid in s'.fids && s'.fids == s.fids[fid := s'.fids[fid]]
    && |s.refs| <= root < |s'.refs| && IsRoot(s'.refs[root], mode)
    && Walked(s', root, names, s'.fids[fid]) && EndIs(s', names, answers, s'.fids[fid])
  }

  predicate IsRoot(r: FidRef, mode: Mode) {
    r.parent.None? && r.node == 0 && r.mode == mode && !r.open && !r.deleted
  }

  lemma AttachEnds(a: State, c: State, s: State, rank: seq<nat>, depth: seq<nat>, fid: Fid, names: seq<string>,
                   mode: Mode, answers: nat -> Option<Mode>, root: RefId, x: RefId)
    requires Grown(a, c) && |a.refs| <= root < |c.refs| && x < |c.refs|
    requires IsRoot(c.refs[root], mode) && EndIs(c, names, answers, x)
    requires OnlyCloses(c.(fids := c.fids[fid := x]), s) && Good(s, NO_HANDS, rank, depth)
    requires Walked(c, root, names, x)
    ensures Grown(a.(fids := s.fids), s) && Attached(a, fid, names, mode, answers, root, s)
  {
    hide Inv, Tidy, Ranked, Grown, Walked;
    var fids := c.fids[fid := x];
    ClosingIsGrowth(c.(fids := fids), s);
    GrownWithFids(a, c, fids);
    GrownTwice(a.(fids := fids), c.(fids := fids), s);
    WalkedWithFids(c, root, names, x, fids);
    GoodFidLives(s, NO_HANDS, rank, depth, fid);
    WalkedLives(c.(fids := fids), s, NO_HANDS, root, names, x);
  }

  lemma WalkedNowhere(s: State, r: RefId)
    ensures Walked(s, r, [], r)
  {
  }

  lemma GrownRef(s: State, s': State, r: RefId)
    requires Grown(s, s') && r < |s.refs|
    ensures r < |s'.refs| && s'.refs[r] == s.refs[r].(count := s'.refs[r].count, closed := s'.refs[r].closed)
  {
  }

  lemma CountsBack(s: State, r: RefId)
    requires r < |s.refs|
    ensures Counting(Counting(s, r, 1), r, -1) == s
  {
  }

  lemma LiveCounts(s: State, h: Hands, rank: seq<nat>, depth: seq<nat>, r: RefId)
    requires Good(s, h, rank, depth) && Live(s, r) && h.young == {}
    ensures s.refs[r].count >= 1
  {
  }

  predicate CanCreate(s: State, fid: Fid, name: string) {
    && SafeName(name) && fid in s.fids && s.fids[fid] < |s.refs|
    && var ref := s.refs[s.fids[fid]]; !ref.deleted && ref.mode.Directory? && !ref.open
  }

  lemma CreateEnds(a: State, c: State, s: State, rank: seq<nat>, depth: seq<nat>, ref: RefId, fid: Fid, name: string,
                   x: RefId)
    requires ref < |a.refs| && Grown(a, a) && Grown(Counting(a, ref, 1), c)
    requires BornBelow(c, ref, name, Openable, true, x)
    requires OnlyCloses(Counting(c, ref, 1).(fids := c.fids[fid := x]), s) && Good(s, NO_HANDS, rank, depth)
    ensures Grown(a.(fids := s.fids), s) && fid in s.fids && s.fids == a.fids[fid := x]
    ensures BornBelow(s, ref, name, Openable, true, x)
  {
    hide Inv, Tidy, Ranked, Grown;
    var fids := c.fids[fid := x];
    CountsGrow(a, a, ref);
    GrownTwice(a, Counting(a, ref, 1), c);
    CountsGrow(a, c, ref);
    var d := Counting(c, ref, 1);
    GrownWithFids(a, d, fids);
    ClosingIsGrowth(d.(fids := fids), s);
    GrownTwice(a.(fids := fids), d.(fids := fids), s);
    GoodFidLives(s, NO_HANDS, rank, depth, fid);
    assert ClosesName(d.(fids := fids), s, c.refs[ref].node, x);
  }

  // ---- Removing ------------------------------------------------------------

  /** The reference has a name in its parent's node. */
  predicate HasName(s: State, r: RefId) {
    && r < |s.refs| && s.refs[r].parent.Some? && s.refs[r].parent.value < |s.refs|
    && s.refs[s.refs[r].parent.value].node < |s.nodes|
    && r in s.nodes[s.refs[s.refs[r].parent.value].node].childRefNames
  }

  function ParentNode(s: State, r: RefId): (n: NodeId)
    requires HasName(s, r)
  {
    s.refs[s.refs[r].parent.value].node
  }

  /** Panics on a reference without a name. */
  function NameFor(s: State, r: RefId): string
    requires HasName(s, r)
  {
    s.nodes[ParentNode(s, r)].childRefNames[r]
  }

  lemma LastingHasName(s: State, h: Hands, rank: seq<nat>, depth: seq<nat>, r: RefId)
    requires Good(s, h, rank, depth) && h.loose == {} && h.unplaced == {} && Lasting(s, r)
    ensures HasName(s, r) && Ranked(s.nodes, rank)
  {
    assert PlacedAt(s, r);
  }

  predicate CanRemove(s: State, fid: Fid) { fid in s.fids && Lasting(s, s.fids[fid]) }

  ghost predicate FileRemoved(s: State, rank: seq<nat>, fid: Fid, s': State) {
    && fid in s.fids && HasName(s, s.fids[fid]) && Ranked(s.nodes, rank)
    && Unlinked(s.(fids := s.fids - {fid}), rank, ParentNode(s, s.fids[fid]), NameFor(s, s.fids[fid]), s')
  }

  /** What the steps of a removal did: b after the lookup, c after the marking. */
  ghost predicate RemoveSteps(a: State, b: State, c: State, rank: seq<nat>, ref: RefId, reply: Reply) {
    && ref < |a.refs| && b == Counting(a, ref, 1)
    && if reply.Done? then
         HasName(b, ref) && Ranked(b.nodes, rank) && NameDeleted(b, rank, ParentNode(b, ref), NameFor(b, ref), c)
       else c == b
  }

  lemma SameSize(a: State, b: State, c: State, d: State, fid: Fid, rank: seq<nat>, ref: RefId, reply: Reply)
    requires RemoveSteps(a, b, c, rank, ref, reply) && OnlyCloses(c.(fids := c.fids - {fid}), d)
    ensures |d.refs| == |a.refs|
  {
  }

  lemma RemoveEnds(a: State, b: State, c: State, d: State, e: State, rank: seq<nat>, depth: seq<nat>, fid: Fid,
                   ref: RefId, reply: Reply)
    requires Good(a, NO_HANDS, rank, depth) && fid in a.fids && a.fids[fid] == ref
    requires RemoveSteps(a, b, c, rank, ref, reply)
    requires OnlyCloses(c.(fids := c.fids - {fid}), d) && OnlyCloses(d, e)
    ensures reply.Done? ==> FileRemoved(a, rank, fid, e)
    ensures !reply.Done? ==> OnlyCloses(a.(fids := a.fids - {fid}), e)
  {
    hide Counted, ClosedOnce, Placed, Tidy, OnlyCloses, Unlinked, Doomed;
    var fids := a.fids - {fid};
    OnlyClosesTwice(c.(fids := c.fids - {fid}), d, e);
    if reply.Done? {
      var n, name := ParentNode(b, ref), NameFor(b, ref);
      CountsKeepNames(a, NO_HANDS, b);
      DeletedIsUnlinked(b, NO_HANDS, rank, n, name, c);
      UnlinkedWithFids(b, rank, n, name, c, fids);
      UnlinkedThenCloses(b.(fids := fids), rank, n, name, c.(fids := fids), e);
      UnlinkedFrom(a.(fids := fids), b.(fids := fids), rank, n, name, e);
    } else {
      TableKeepsNames(a, NO_HANDS, fids);
      CountsClose(a.(fids := fids), NO_HANDS, b.(fids := fids));
      OnlyClosesTwice(a.(fids := fids), b.(fids := fids), e);
    }
  }

  lemma CountsKeepNames(s: State, h: Hands, s': State)
    requires Named(s, h) && SameFiles(s, s')
    ensures Named(s', h)
  {
    forall n, r | 0 <= n < |s.nodes| && r in s.nodes[n].childRefNames
      ensures NamedAt(s', h, n, r)
    {
      assert NamedAt(s, h, n, r);
    }
  }

  /** The name is deleted, in a state that has a node for it. */
  ghost predicate NameUnlinked(s: State, rank: seq<nat>, ref: RefId, name: string, s': State) {
    && ref < |s.refs| && s.refs[ref].node < |s.nodes| == |rank|
    && var n := s.refs[ref].node;
       Ranked(WithNode(s, n, name).0.nodes, WithNodeRank(s, n, name, rank))
       && Unlinked(WithNode(s, n, name).0, WithNodeRank(s, n, name, rank), n, name, s')
  }

  lemma UnlinkReady(s: State, h: Hands, rank: seq<nat>, depth: seq<nat>, ref: RefId, name: string)
    requires Good(s, h, rank, depth) && ref < |s.refs|
    ensures s.refs[ref].node < |s.nodes| == |rank|
    ensures Good(WithNode(s, s.refs[ref].node, name).0, h, WithNodeRank(s, s.refs[ref].node, name, rank), depth)
    ensures Ranked(WithNode(s, s.refs[ref].node, name).0.nodes, WithNodeRank(s, s.refs[ref].node, name, rank))
  {
    WithNodeKeeps(s, h, s.refs[ref].node, name, rank, depth);
  }

  lemma UnlinkFails(a: State, rank: seq<nat>, depth: seq<nat>, ref: RefId, name: string)
    requires Good(a, NO_HANDS, rank, depth) && ref < |a.refs|
    ensures a.refs[ref].node < |a.nodes|
    ensures var c := WithNode(Counting(a, ref, 1), a.refs[ref].node, name).0; Grown(a, Counting(c, ref, -1))
  {
    var n := a.refs[ref].node;
    WithNodeGrows(a, NO_HANDS, n, name);
    var c := WithNode(Counting(a, ref, 1), n, name).0;
    assert Counting(c, ref, -1) == WithNode(a, n, name).0;
  }

  lemma DeletionSize(s: State, rank: seq<nat>, n: NodeId, name: string, s': State)
    requires Ranked(s.nodes, rank) && n < |s.nodes| && NameDeleted(s, rank, n, name, s')
    ensures |s'.refs| == |s.refs|
  {
  }

  lemma UnlinkEnds(a: State, d: State, e: State, rank: seq<nat>, depth: seq<nat>, ref: RefId, name: string)
    requires Good(a, NO_HANDS, rank, depth) && ref < |a.refs| && a.refs[ref].node < |a.nodes| == |rank|
    requires var c, rank' := WithNode(Counting(a, ref, 1), a.refs[ref].node, name).0,
                             WithNodeRank(Counting(a, ref, 1), a.refs[ref].node, name, rank);
             Ranked(c.nodes, rank') && NameDeleted(c, rank', a.refs[ref].node, name, d)
    requires OnlyCloses(d, e)
    ensures NameUnlinked(a, rank, ref, name, e)
  {
    hide Counted, ClosedOnce, Placed, Tidy, OnlyCloses, Unlinked, Doomed;
    var n := a.refs[ref].node;
    var c, rank' := WithNode(Counting(a, ref, 1), n, name).0, WithNodeRank(Counting(a, ref, 1), n, name, rank);
    var c0 := WithNode(a, n, name).0;
    assert SameFiles(c0, c) && c0.fids == c.fids;
    WithNodeKeeps(a, NO_HANDS, n, name, rank, depth);
    CountsKeepNames(c0, NO_HANDS, c);
    DeletedIsUnlinked(c, NO_HANDS, rank', n, name, d);
    UnlinkedThenCloses(c, rank', n, name, d, e);
    UnlinkedFrom(c0, c, rank', n, name, e);
  }

  // ---- Renaming ------------------------------------------------------------

  ghost predicate TookBoth(a: State, ref: RefId, target: RefId, s: State) {
    && Live(a, ref) && Live(a, target) && a.refs[ref].count >= 1 && a.refs[target].count >= 1
    && s == Counting(Counting(a, ref, 1), target, 1)
  }

  predicate CanRename(s: State, fid: Fid, dir: Fid, name: string) {
    && SafeName(name) && fid in s.fids && dir in s.fids && Lasting(s, s.fids[fid]) && s.fids[dir] < |s.refs|
    && !s.refs[s.fids[dir]].deleted && s.refs[s.fids[dir]].mode.Directory?
  }

  predicate SamePlace(s: State, ref: RefId, target: RefId, name: string) {
    && HasName(s, ref) && target < |s.refs|
    && ParentNode(s, ref) == s.refs[target].node && NameFor(s, ref) == name
  }

  /** The target's node is not below the name that is moved. */
  ghost predicate MovesOutOf(s: State, rank: seq<nat>, n: NodeId, name: string, target: RefId) {
    && Ranked(s.nodes, rank) && n < |s.nodes| && target < |s.refs|
    && (name in s.nodes[n].childNodes ==> s.refs[target].node !in Below(s.nodes, rank, s.nodes[n].childNodes[name]))
  }

  ghost predicate MovesOut(s: State, rank: seq<nat>, ref: RefId, target: RefId) {
    HasName(s, ref) && MovesOutOf(s, rank, ParentNode(s, ref), NameFor(s, ref), target)
  }

  ghost predicate FileRenamed(s: State, rank: seq<nat>, ref: RefId, target: RefId, name: string, s': State) {
    && HasName(s, ref) && Ranked(s.nodes, rank) && target < |s.refs| && s.refs[target].node < |s.nodes|
    && Renamed(s, rank, ParentNode(s, ref), NameFor(s, ref), target, name, s')
  }

  predicate CanRenameAt(s: State, oldDir: Fid, oldName: string, newDir: Fid, newName: string) {
    && CanCreate(s, oldDir, oldName) && SafeName(newName) && newDir in s.fids && s.fids[newDir] < |s.refs|
    && !s.refs[s.fids[newDir]].deleted && s.refs[s.fids[newDir]].mode.Directory?
  }

  predicate SameEntry(s: State, oldDir: Fid, oldName: string, newDir: Fid, newName: string) {
    && oldDir in s.fids && newDir in s.fids && s.fids[oldDir] < |s.refs| && s.fids[newDir] < |s.refs|
    && s.refs[s.fids[oldDir]].node == s.refs[s.fids[newDir]].node && oldName == newName
  }

  ghost predicate EntryRenamed(s: State, rank: seq<nat>, ref: RefId, oldName: string, target: RefId, newName: string,
                               s': State)
  {
    && ref < |s.refs| && s.refs[ref].node < |s.nodes| && Ranked(s.nodes, rank) && target < |s.refs|
    && s.refs[target].node < |s.nodes|
    && Renamed(s, rank, s.refs[ref].node, oldName, target, newName, s')
  }

  lemma ParentNotDeleted(s: State, h: Hands, rank: seq<nat>, depth: seq<nat>, ref: RefId)
    requires Good(s, h, rank, depth) && h.loose == {} && Lasting(s, ref)
    ensures s.refs[ref].parent.value < |s.refs| && !s.refs[s.refs[ref].parent.value].deleted
  {
  }

  lemma MoveReady(a: State, s: State, h: Hands, rank: seq<nat>, depth: seq<nat>, n: NodeId, old_: string,
                  target: RefId, new_: string)
    requires Good(s, h, rank, depth) && h.held[target] > 0 && SameFiles(a, s) && MovesOutOf(a, rank, n, old_, target)
    requires !s.refs[target].deleted && !(n == s.refs[target].node && old_ == new_)
    ensures MayMove(s, rank, n, old_, target, new_)
  {
    HeldLives(s, h, target);
  }

  lemma RenameSize(s: State, rank: seq<nat>, n: NodeId, old_: string, target: RefId, new_: string, s': State)
    requires Ranked(s.nodes, rank) && n < |s.nodes| && target < |s.refs| && s.refs[target].node < |s.nodes|
    requires Renamed(s, rank, n, old_, target, new_, s')
    ensures |s'.refs| == |s.refs|
  {
  }

  // ---- Opening and stopping ------------------------------------------------

  predicate CanOpen(s: State, fid: Fid, readOnly: bool, truncate: bool) {
    && fid in s.fids && s.fids[fid] < |s.refs|
    && var ref := s.refs[s.fids[fid]];
       !ref.deleted && !ref.open && !ref.mode.Other? && (ref.mode.Directory? ==> readOnly && !truncate)
  }

  function Opening(s: State, r: RefId): State
    requires r < |s.refs|
  {
    s.(refs := s.refs[r := s.refs[r].(open := true)])
  }

  lemma OpenKeeps(s: State, h: Hands, r: RefId, rank: seq<nat>, depth: seq<nat>)
    requires Good(s, h, rank, depth) && r < |s.refs|
    ensures Good(Opening(s, r), h, rank, depth)
  {
    var s' := Opening(s, r);
    forall x | 0 <= x < |s.refs|
      ensures s'.refs[x].count == Uses(s', h, x)
    {
      assert ChildrenOf(s', h, x) == ChildrenOf(s, h, x);
      assert FidsOf(s', x) == FidsOf(s, x);
    }
    OpenPlaces(s, h, r);
    hide Counted, Named, Placed;
  }

  lemma OpenPlaces(s: State, h: Hands, r: RefId)
    requires Inv(s, h) && r < |s.refs|
    ensures Named(Opening(s, r), h) && Placed(Opening(s, r), h)
  {
    hide Counted, ClosedOnce;
    var s' := Opening(s, r);
    forall n, x | 0 <= n < |s.nodes| && x in s.nodes[n].childRefNames
      ensures NamedAt(s', h, n, x)
    {
      assert NamedAt(s, h, n, x);
    }
    forall x | 0 <= x < |s'.refs| && Lasting(s', x) && x !in h.loose && x !in h.unplaced
      ensures PlacedAt(s', x)
    {
      assert PlacedAt(s, x);
    }
  }

  function OtherFids(fids: map<Fid, RefId>, conn: nat): map<Fid, RefId> {
    map f | f in fids && f.conn != conn :: fids[f]
  }

  lemma CountsCloseGood(s: State, h: Hands, rank: seq<nat>, depth: seq<nat>)
    requires Good(s, h, rank, depth)
    ensures OnlyCloses(s, s)
  {
    CountsClose(s, h, s);
  }

  lemma ClosesWithFids(s: State, s': State, fids: map<Fid, RefId>)
    requires OnlyCloses(s, s')
    ensures OnlyCloses(s.(fids := fids), s'.(fids := fids))
  {
    var a, b := s.(fids := fids), s'.(fids := fids);
    forall r | 0 <= r < |s.refs|
      ensures Live(b, r) ==> Live(a, r)
    {
      assert Live(s', r) ==> Live(s, r);
    }
    forall n, r | 0 <= n < |s.nodes|
      ensures ClosesName(a, b, n, r)
    {
      assert ClosesName(s, s', n, r);
    }
  }
}
