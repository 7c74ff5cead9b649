/** Subtrees of the 9P server's path tree: deletion marks everything below a name,
    and a rename carries everything below a name along. */
module FidTree {
  import opened Words
  import opened PathNodes
  import opened FidState
  import opened FidSteps

  // ---- Subtrees ------------------------------------------------------------

  ghost function Below(nodes: seq<PathNode>, rank: seq<nat>, n: NodeId): set<NodeId>
    requires Ranked(nodes, rank) && n < |nodes|
    decreases rank[n]
  {
    {n} + set name, x | name in nodes[n].childNodes && x in Below(nodes, rank, nodes[n].childNodes[name]) :: x
  }

  lemma BelowOf(nodes: seq<PathNode>, rank: seq<nat>, n: NodeId, x: NodeId)
    requires Ranked(nodes, rank) && n < |nodes|
    ensures x in Below(nodes, rank, n) <==>
            x == n || exists name :: name in nodes[n].childNodes && x in Below(nodes, rank, nodes[n].childNodes[name])
  {
  }

  lemma {:induction false} BelowRank(nodes: seq<PathNode>, rank: seq<nat>, n: NodeId, x: NodeId)
    requires Ranked(nodes, rank) && n < |nodes| && x in Below(nodes, rank, n)
    ensures x < |nodes| && rank[x] <= rank[n]
    decreases rank[n]
  {
    BelowOf(nodes, rank, n, x);
    if x != n {
      var name :| name in nodes[n].childNodes && x in Below(nodes, rank, nodes[n].childNodes[name]);
      BelowRank(nodes, rank, nodes[n].childNodes[name], x);
    }
  }

  /** A child of a node below is below. */
  lemma {:induction false} BelowChild(nodes: seq<PathNode>, rank: seq<nat>, n: NodeId, x: NodeId, name: string)
    requires Ranked(nodes, rank) && n < |nodes| && x in Below(nodes, rank, n)
    requires x < |nodes| && name in nodes[x].childNodes
    ensures nodes[x].childNodes[name] in Below(nodes, rank, n)
    decreases rank[n]
  {
    BelowOf(nodes, rank, n, x);
    var y := nodes[x].childNodes[name];
    BelowOf(nodes, rank, n, y);
    if x == n {
      BelowOf(nodes, rank, y, y);
      assert name in nodes[n].childNodes && y in Below(nodes, rank, nodes[n].childNodes[name]);
    } else {
      var k :| k in nodes[n].childNodes && x in Below(nodes, rank, nodes[n].childNodes[k]);
      BelowChild(nodes, rank, nodes[n].childNodes[k], x, name);
      assert k in nodes[n].childNodes && y in Below(nodes, rank, nodes[n].childNodes[k]);
    }
  }

  /** With fewer child names no more nodes are below. */
  lemma {:induction false} BelowShrinks(nodes: seq<PathNode>, rank: seq<nat>, nodes': seq<PathNode>, n: NodeId,
                                        x: NodeId)
    requires Ranked(nodes, rank) && Ranked(nodes', rank) && n < |nodes|
    requires forall m, k :: 0 <= m < |nodes| && k in nodes'[m].childNodes ==>
               k in nodes[m].childNodes && nodes'[m].childNodes[k] == nodes[m].childNodes[k]
    requires x in Below(nodes', rank, n)
    ensures x in Below(nodes, rank, n)
    decreases rank[n]
  {
    BelowOf(nodes, rank, n, x);
    BelowOf(nodes', rank, n, x);
    if x != n {
      var k :| k in nodes'[n].childNodes && x in Below(nodes', rank, nodes'[n].childNodes[k]);
      BelowShrinks(nodes, rank, nodes', nodes'[n].childNodes[k], x);
      assert k in nodes[n].childNodes && x in Below(nodes, rank, nodes[n].childNodes[k]);
    }
  }

  /** A node of higher rank does not matter. */
  lemma {:induction false} BelowSame(nodes: seq<PathNode>, rank: seq<nat>, nodes': seq<PathNode>, n: NodeId,
                                     top: NodeId)
    requires Ranked(nodes, rank) && Ranked(nodes', rank) && n < |nodes| && top < |nodes| && rank[n] < rank[top]
    requires forall m :: 0 <= m < |nodes| && m != top ==> nodes'[m] == nodes[m]
    ensures Below(nodes', rank, n) == Below(nodes, rank, n)
    decreases rank[n]
  {
    forall k | k in nodes[n].childNodes
      ensures Below(nodes', rank, nodes[n].childNodes[k]) == Below(nodes, rank, nodes[n].childNodes[k])
    {
      BelowSame(nodes, rank, nodes', nodes[n].childNodes[k], top);
    }
    forall x
      ensures x in Below(nodes', rank, n) <==> x in Below(nodes, rank, n)
    {
      BelowOf(nodes, rank, n, x);
      BelowOf(nodes', rank, n, x);
    }
  }

  // ---- Deletion ------------------------------------------------------------

  /** The references with a name in a node of the subtree. */
  ghost function RefsBelow(nodes: seq<PathNode>, rank: seq<nat>, n: NodeId): set<RefId>
    requires Ranked(nodes, rank) && n < |nodes|
  {
    set m, r | m in Below(nodes, rank, n) && m < |nodes| && r in nodes[m].childRefNames :: r
  }

  lemma RefsBelowOf(nodes: seq<PathNode>, rank: seq<nat>, n: NodeId, r: RefId)
    requires Ranked(nodes, rank) && n < |nodes|
    ensures r in RefsBelow(nodes, rank, n) <==>
            || r in nodes[n].childRefNames
            || exists k :: k in nodes[n].childNodes && r in RefsBelow(nodes, rank, nodes[n].childNodes[k])
  {
    hide Below;
    if r in nodes[n].childRefNames {
      BelowOf(nodes, rank, n, n);
    }
    if k :| k in nodes[n].childNodes && r in RefsBelow(nodes, rank, nodes[n].childNodes[k]) {
      var m :| m in Below(nodes, rank, nodes[n].childNodes[k]) && m < |nodes| && r in nodes[m].childRefNames;
      BelowOf(nodes, rank, n, m);
    }
    if r in RefsBelow(nodes, rank, n) {
      var m :| m in Below(nodes, rank, n) && m < |nodes| && r in nodes[m].childRefNames;
      BelowOf(nodes, rank, n, m);
    }
  }

  lemma RefsBelowSame(nodes: seq<PathNode>, rank: seq<nat>, nodes': seq<PathNode>, n: NodeId, top: NodeId)
    requires Ranked(nodes, rank) && Ranked(nodes', rank) && n < |nodes| && top < |nodes| && rank[n] < rank[top]
    requires forall m :: 0 <= m < |nodes| && m != top ==> nodes'[m] == nodes[m]
    ensures RefsBelow(nodes', rank, n) == RefsBelow(nodes, rank, n)
  {
    BelowSame(nodes, rank, nodes', n, top);
    forall m | m in Below(nodes, rank, n)
      ensures m != top
    {
      BelowRank(nodes, rank, n, m);
    }
  }

  function Marking(refs: seq<FidRef>, doomed: set<RefId>): (refs': seq<FidRef>)
    ensures |refs'| == |refs|
    ensures forall r :: 0 <= r < |refs| ==> refs'[r] == refs[r].(deleted := refs[r].deleted || r in doomed)
  {
    seq(|refs|, i requires 0 <= i < |refs| => refs[i].(deleted := refs[i].deleted || i in doomed))
  }

  /** What deleting a name in a node dooms: its references and all below. */
  ghost function Doomed(nodes: seq<PathNode>, rank: seq<nat>, n: NodeId, name: string): set<RefId>
    requires Ranked(nodes, rank) && n < |nodes|
  {
    nodes[n].RefsNamed(name) +
    if name in nodes[n].childNodes then RefsBelow(nodes, rank, nodes[n].childNodes[name]) else {}
  }

  /** The name is deleted in the node: it leads nowhere, and its references and
      everything below it are deleted. */
  ghost predicate NameDeleted(s: State, rank: seq<nat>, n: NodeId, name: string, s': State)
    requires Ranked(s.nodes, rank) && n < |s.nodes|
  {
    && s'.refs == Marking(s.refs, Doomed(s.nodes, rank, n, name)) && s'.fids == s.fids
    && |s'.nodes| == |s.nodes| && (forall m :: 0 <= m < |s.nodes| && m != n ==> s'.nodes[m] == s.nodes[m])
    && s'.nodes[n].childNodes == s.nodes[n].childNodes - {name}
    && s'.nodes[n].childRefNames == s.nodes[n].childRefNames - s.nodes[n].RefsNamed(name)
  }

  lemma DeletionKeeps(s: State, h: Hands, rank: seq<nat>, depth: seq<nat>, n: NodeId, name: string, s': State)
    requires Good(s, h, rank, depth) && n < |s.nodes| && h.unplaced == {} && h.loose == {}
    requires NameDeleted(s, rank, n, name, s') && s'.nodes[n].Matched()
    ensures Good(s', h, rank, depth)
  {
    hide Counted, Named, Placed, Tidy, Doomed;
    DeletionCounts(s, h, rank, n, name, s');
    DeletionPlaces(s, h, rank, n, name, s');
    DeletionTidy(s, h, rank, depth, n, name, s');
  }

  lemma DeletionCounts(s: State, h: Hands, rank: seq<nat>, n: NodeId, name: string, s': State)
    requires Inv(s, h) && Ranked(s.nodes, rank) && n < |s.nodes| && NameDeleted(s, rank, n, name, s')
    ensures Counted(s', h)
  {
    hide Named, Placed, AllMatched, Doomed;
    forall x | 0 <= x < |s'.refs|
      ensures s'.refs[x].count == Uses(s', h, x)
    {
      assert FidsOf(s', x) == FidsOf(s, x);
      assert ChildrenOf(s', h, x) == ChildrenOf(s, h, x);
    }
  }

  lemma DeletionPlaces(s: State, h: Hands, rank: seq<nat>, n: NodeId, name: string, s': State)
    requires Inv(s, h) && Ranked(s.nodes, rank) && n < |s.nodes| && NameDeleted(s, rank, n, name, s')
    requires h.unplaced == {} && h.loose == {}
    ensures Named(s', h) && Placed(s', h)
  {
    hide Counted, ClosedOnce, RefsBelow, Ranked;
    forall m, x | 0 <= m < |s'.nodes| && x in s'.nodes[m].childRefNames
      ensures NamedAt(s', h, m, x)
    {
      assert NamedAt(s, h, m, x);
    }
    forall x | 0 <= x < |s'.refs| && Lasting(s', x)
      ensures PlacedAt(s', x)
    {
      assert PlacedAt(s, x);
    }
  }

  /** The child of a doomed file is doomed: its parent's node is below. */
  lemma DoomedChild(s: State, h: Hands, rank: seq<nat>, n: NodeId, name: string, p: RefId, r: RefId)
    requires Inv(s, h) && Ranked(s.nodes, rank) && n < |s.nodes| && h.unplaced == {} && h.loose == {}
    requires p in Doomed(s.nodes, rank, n, name) && p < |s.refs| && !s.refs[p].deleted
    requires r < |s.refs| && Lasting(s, r) && s.refs[r].parent == Some(p)
    ensures r in Doomed(s.nodes, rank, n, name)
  {
    hide Counted, ClosedOnce;
    var m: NodeId;
    if p in s.nodes[n].RefsNamed(name) {
      m := n;
    } else {
      m :| m in Below(s.nodes, rank, s.nodes[n].childNodes[name]) && m < |s.nodes| && p in s.nodes[m].childRefNames;
    }
    assert NamedAt(s, h, m, p);
    assert PlacedAt(s, p) && PlacedAt(s, r);
    var top := s.nodes[n].childNodes[name];
    if m == n && p in s.nodes[n].RefsNamed(name) {
      BelowOf(s.nodes, rank, top, top);
      assert s.refs[p].node == top;
    } else {
      BelowChild(s.nodes, rank, top, m, s.nodes[m].childRefNames[p]);
    }
    assert s.refs[p].node in Below(s.nodes, rank, top);
  }

  lemma DeletionTidy(s: State, h: Hands, rank: seq<nat>, depth: seq<nat>, n: NodeId, name: string, s': State)
    requires Good(s, h, rank, depth) && n < |s.nodes| && NameDeleted(s, rank, n, name, s')
    requires h.unplaced == {} && h.loose == {}
    ensures Tidy(s', h, depth)
  {
    hide Counted, ClosedOnce, Named, Placed, Doomed;
    forall r | 0 <= r < |s'.refs| && Live(s', r) && s'.refs[r].parent.Some?
      ensures var p := s'.refs[r].parent.value;
              p < |s'.refs| && depth[p] < depth[r] && (s'.refs[p].deleted ==> s'.refs[r].deleted)
    {
      var p := s.refs[r].parent.value;
      if !s.refs[p].deleted && p in Doomed(s.nodes, rank, n, name) && !s.refs[r].deleted {
        DoomedChild(s, h, rank, n, name, p, r);
      }
    }
  }

  // ---- Moving a subtree ----------------------------------------------------

  /** Ranks under which the subtree of a node may hang below any node outside. */
  ghost function Raised(nodes: seq<PathNode>, rank: seq<nat>, n: NodeId): (rank': seq<nat>)
    requires Ranked(nodes, rank) && n < |nodes|
    ensures |rank'| == |rank|
  {
    seq(|rank|, i requires 0 <= i < |rank| =>
      if i in Below(nodes, rank, n) then rank[i] else rank[i] + rank[n] + 1)
  }

  lemma RaisedRanks(nodes: seq<PathNode>, rank: seq<nat>, n: NodeId, target: NodeId)
    requires Ranked(nodes, rank) && n < |nodes| && target < |nodes| && target !in Below(nodes, rank, n)
    ensures Ranked(nodes, Raised(nodes, rank, n))
    ensures Raised(nodes, rank, n)[n] < Raised(nodes, rank, n)[target]
  {
    var rank' := Raised(nodes, rank, n);
    BelowOf(nodes, rank, n, n);
    forall m, name | 0 <= m < |nodes| && name in nodes[m].childNodes
      ensures rank'[nodes[m].childNodes[name]] < rank'[m]
    {
      var c := nodes[m].childNodes[name];
      if m in Below(nodes, rank, n) {
        BelowChild(nodes, rank, n, m, name);
      }
      if c in Below(nodes, rank, n) {
        BelowRank(nodes, rank, n, c);
      }
    }
  }

  /** The nodes after the name old of a node is moved to the name new of another. */
  function MovedNodes(nodes: seq<PathNode>, n: NodeId, old_: string, target: NodeId, new_: string): seq<PathNode>
    requires n < |nodes| && target < |nodes| && new_ !in nodes[target].childNodes
  {
    if old_ !in nodes[n].childNodes then nodes else
    var dropped := nodes[n := nodes[n].DropPathNode(old_)];
    dropped[target := dropped[target].AddPathNodeFor(new_, nodes[n].childNodes[old_])]
  }

  /** A move makes no cycle exactly when the target is not in the subtree moved. */
  lemma MoveMakesNoCycleIff(nodes: seq<PathNode>, rank: seq<nat>, n: NodeId, old_: string, target: NodeId, new_: string)
    requires Ranked(nodes, rank) && n < |nodes| && target < |nodes|
    requires old_ in nodes[n].childNodes && new_ !in nodes[target].childNodes
    ensures (exists rank' :: Ranked(MovedNodes(nodes, n, old_, target, new_), rank')) <==>
            target !in Below(nodes, rank, nodes[n].childNodes[old_])
  {
    var top := nodes[n].childNodes[old_];
    var nodes' := MovedNodes(nodes, n, old_, target, new_);
    if target !in Below(nodes, rank, top) {
      RaisedRanks(nodes, rank, top, target);
      assert Ranked(nodes', Raised(nodes, rank, top));
    } else {
      assert new_ in nodes'[target].childNodes && nodes'[target].childNodes[new_] == top;
      BelowOf(nodes, rank, top, top);
      forall rank' | Ranked(nodes', rank')
        ensures false
      {
        StillAbove(nodes, rank, n, old_, target, new_, rank', top);
      }
    }
  }

  lemma {:induction false} StillAbove(nodes: seq<PathNode>, rank: seq<nat>, n: NodeId, old_: string, target: NodeId,
                                      new_: string, rank': seq<nat>, x: NodeId)
    requires Ranked(nodes, rank) && n < |nodes| && target < |nodes|
    requires old_ in nodes[n].childNodes && new_ !in nodes[target].childNodes
    requires Ranked(MovedNodes(nodes, n, old_, target, new_), rank')
    requires x < |nodes| && x in Below(nodes, rank, nodes[n].childNodes[old_]) && target in Below(nodes, rank, x)
    ensures rank'[target] <= rank'[x]
    decreases rank[x]
  {
    var top := nodes[n].childNodes[old_];
    var nodes' := MovedNodes(nodes, n, old_, target, new_);
    BelowOf(nodes, rank, x, target);
    if x != target {
      var name :| name in nodes[x].childNodes && target in Below(nodes, rank, nodes[x].childNodes[name]);
      BelowRank(nodes, rank, top, x);
      BelowChild(nodes, rank, top, x, name);
      assert name in nodes'[x].childNodes && nodes'[x].childNodes[name] == nodes[x].childNodes[name];
      StillAbove(nodes, rank, n, old_, target, new_, rank', nodes[x].childNodes[name]);
    }
  }
}
