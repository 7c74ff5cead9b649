/** The small steps of the 9P handlers: taking, dropping and closing references,
    the FID table, and new references. Each keeps the invariant. */
module FidSteps {
  import opened Words
  import opened PathNodes
  import opened FidState

  // ---- Steps that change counts and FIDs only ------------------------------

  ghost predicate SameFiles(s: State, s': State) {
    && |s'.refs| == |s.refs| && s'.nodes == s.nodes
    && forall r :: 0 <= r < |s.refs| ==> s'.refs[r] == s.refs[r].(count := s'.refs[r].count)
  }

  lemma FilesKeep(s: State, h: Hands, s': State, h': Hands, rank: seq<nat>, depth: seq<nat>)
    requires Good(s, h, rank, depth) && SameFiles(s, s') && h'.loose == h.loose && h'.unplaced == h.unplaced
    requires InRange(s', h')
    ensures AllMatched(s') && Named(s', h') && Placed(s', h') && Ranked(s'.nodes, rank) && Tidy(s', h', depth)
  {
    forall r | 0 <= r < |s.refs| && Lasting(s', r) && r !in h.loose && r !in h.unplaced
      ensures PlacedAt(s', r)
    {
      assert PlacedAt(s, r);
    }
    forall n, r | 0 <= n < |s.nodes| && r in s.nodes[n].childRefNames
      ensures NamedAt(s', h', n, r)
    {
      assert NamedAt(s, h, n, r);
    }
  }

  function Counting(s: State, r: RefId, d: int): State
    requires r < |s.refs|
  {
    s.(refs := s.refs[r := s.refs[r].(count := s.refs[r].count + d)])
  }

  function Holding(h: Hands, r: RefId): Hands { h.(held := h.held + multiset{r}) }

  function Without(h: Hands, r: RefId): Hands { h.(held := h.held - multiset{r}) }

  lemma CountingCounts(s: State, h: Hands, r: RefId, d: int, h': Hands)
    requires Inv(s, h) && r < |s.refs| && h'.loose == h.loose
    requires forall x :: h'.held[x] == h.held[x] + if x == r then d else 0
    ensures Counted(Counting(s, r, d), h')
  {
    hide Named, Placed, AllMatched;
    var s' := Counting(s, r, d);
    forall x | 0 <= x < |s'.refs|
      ensures s'.refs[x].count == Uses(s', h', x)
    {
      assert ChildrenOf(s', h', x) == ChildrenOf(s, h, x);
      assert FidsOf(s', x) == FidsOf(s, x);
    }
  }

  lemma TakeKeeps(s: State, h: Hands, r: RefId, rank: seq<nat>, depth: seq<nat>)
    requires Good(s, h, rank, depth) && Live(s, r)
    ensures Good(Counting(s, r, 1), Holding(h, r).(young := h.young - {r}), rank, depth)
  {
    hide Named, Placed, AllMatched, Uses;
    var s', h' := Counting(s, r, 1), Holding(h, r).(young := h.young - {r});
    CountingCounts(s, h, r, 1, h');
    FilesKeep(s, h, s', h', rank, depth);
  }

  lemma ReleaseKeeps(s: State, h: Hands, r: RefId, rank: seq<nat>, depth: seq<nat>)
    requires Good(s, h, rank, depth) && h.held[r] > 0 && r < |s.refs| && s.refs[r].count > 1
    ensures Good(Counting(s, r, -1), Without(h, r), rank, depth)
  {
    hide Named, Placed, AllMatched, Uses;
    var s', h' := Counting(s, r, -1), Without(h, r);
    CountingCounts(s, h, r, -1, h');
    FilesKeep(s, h, s', h', rank, depth);
  }

  /** A FID table entry passes its reference on to the handler, or gets it from
      the handler. */
  lemma TableKeeps(s: State, h: Hands, f: Fid, fids: map<Fid, RefId>, h': Hands, rank: seq<nat>, depth: seq<nat>)
    requires Good(s, h, rank, depth) && h' == h.(held := h'.held)
    requires forall g :: g != f ==> (g in s.fids <==> g in fids) && (g in s.fids ==> s.fids[g] == fids[g])
    requires forall r :: One(f in fids && fids[f] == r) + h'.held[r] == One(f in s.fids && s.fids[f] == r) + h.held[r]
    ensures Good(s.(fids := fids), h', rank, depth)
  {
    var s' := s.(fids := fids);
    forall x | 0 <= x < |s.refs|
      ensures s'.refs[x].count == Uses(s', h', x)
    {
      assert ChildrenOf(s', h', x) == ChildrenOf(s, h, x);
      FidsAfter(s, s', f, x);
    }
    forall r | r in h'.held
      ensures r < |s.refs|
    {
      assert One(f in fids && fids[f] == r) + h'.held[r] == One(f in s.fids && s.fids[f] == r) + h.held[r];
    }
    forall g | g in fids
      ensures fids[g] < |s.refs|
    {
      var r := fids[g];
      assert One(f in fids && fids[f] == r) + h'.held[r] == One(f in s.fids && s.fids[f] == r) + h.held[r];
    }
    FilesKeep(s, h, s', h', rank, depth);
  }

  // ---- Closing a reference -------------------------------------------------

  /** The last reference is dropped: the file is closed and leaves its parent's
      node. */
  function Closing(s: State, r: RefId): State
    requires r < |s.refs| && s.refs[r].node < |s.nodes|
    requires s.refs[r].parent.Some? ==> s.refs[r].parent.value < |s.refs|
    requires s.refs[r].parent.Some? ==> s.refs[s.refs[r].parent.value].node < |s.nodes|
    requires AllMatched(s)
  {
    var refs := s.refs[r := s.refs[r].(count := s.refs[r].count - 1, closed := s.refs[r].closed + 1)];
    if s.refs[r].parent.None? then s.(refs := refs) else
    var n := s.refs[s.refs[r].parent.value].node;
    s.(refs := refs, nodes := s.nodes[n := s.nodes[n].RemoveChild(r)])
  }

  /** The handler takes over the reference to the parent. */
  function PassedOn(s: State, h: Hands, r: RefId): Hands
    requires r < |s.refs|
  {
    if s.refs[r].parent.None? then Without(h, r) else Holding(Without(h, r), s.refs[r].parent.value)
  }

  lemma CloseCounts(s: State, h: Hands, r: RefId)
    requires Inv(s, h) && h.held[r] > 0 && r < |s.refs| && s.refs[r].count == 1 && r !in h.loose
    requires s.refs[r].parent != Some(r)
    ensures Counted(Closing(s, r), PassedOn(s, h, r)) && ClosedOnce(Closing(s, r), PassedOn(s, h, r))
  {
    var s', h' := Closing(s, r), PassedOn(s, h, r);
    assert Live(s, r);
    forall x | 0 <= x < |s'.refs|
      ensures s'.refs[x].count == Uses(s', h', x)
    {
      assert FidsOf(s', x) == FidsOf(s, x);
      ChildrenAfter(s, h, s', h', r, x);
      assert s.refs[x].count == Uses(s, h, x);
    }
  }

  lemma CloseNames(s: State, h: Hands, r: RefId)
    requires Inv(s, h) && Live(s, r) && r !in h.loose
    ensures Named(Closing(s, r), PassedOn(s, h, r))
  {
    hide Counted, ClosedOnce, Placed, Uses;
    var s', h' := Closing(s, r), PassedOn(s, h, r);
    forall n, x | 0 <= n < |s'.nodes| && x in s'.nodes[n].childRefNames
      ensures NamedAt(s', h', n, x)
    {
      assert NamedAt(s, h, n, x);
    }
  }

  lemma ClosePlaces(s: State, h: Hands, r: RefId)
    requires Inv(s, h) && Live(s, r) && r !in h.loose && s.refs[r].closed == 0
    ensures Placed(Closing(s, r), PassedOn(s, h, r))
  {
    hide Counted, ClosedOnce, Named;
    var s', h' := Closing(s, r), PassedOn(s, h, r);
    forall x | 0 <= x < |s'.refs| && Lasting(s', x) && x !in h'.loose && x !in h'.unplaced
      ensures PlacedAt(s', x)
    {
      assert PlacedAt(s, x);
    }
  }

  lemma CloseKeeps(s: State, h: Hands, r: RefId, rank: seq<nat>, depth: seq<nat>)
    requires Good(s, h, rank, depth) && h.held[r] > 0 && r < |s.refs| && s.refs[r].count == 1 && r !in h.loose
    ensures Good(Closing(s, r), PassedOn(s, h, r), rank, depth)
  {
    HeldLives(s, h, r);
    CloseCounts(s, h, r);
    CloseNames(s, h, r);
    ClosePlaces(s, h, r);
    assert InRange(Closing(s, r), PassedOn(s, h, r)) && AllMatched(Closing(s, r));
  }

  // ---- Only closing --------------------------------------------------------

  /** Nothing changed but counts and the names of files that were closed. */
  ghost predicate OnlyCloses(s: State, s': State) {
    && |s'.refs| == |s.refs| && |s'.nodes| == |s.nodes| && s'.fids == s.fids
    && (forall r :: 0 <= r < |s.refs| ==>
          && s'.refs[r] == s.refs[r].(count := s'.refs[r].count, closed := s'.refs[r].closed)
          && (Live(s', r) ==> Live(s, r)))
    && (forall n :: 0 <= n < |s.nodes| ==> s'.nodes[n].childNodes == s.nodes[n].childNodes)
    && forall n, r :: 0 <= n < |s.nodes| ==> ClosesName(s, s', n, r)
  }

  ghost predicate ClosesName(s: State, s': State, n: NodeId, r: RefId)
    requires n < |s.nodes| == |s'.nodes|
  {
    var names, names' := s.nodes[n].childRefNames, s'.nodes[n].childRefNames;
    (r in names' <==> r in names && Live(s', r)) && (r in names' ==> names'[r] == names[r])
  }

  lemma OnlyClosesTwice(s: State, s1: State, s2: State)
    requires OnlyCloses(s, s1) && OnlyCloses(s1, s2)
    ensures OnlyCloses(s, s2)
  {
    forall n, r | 0 <= n < |s.nodes|
      ensures ClosesName(s, s2, n, r)
    {
      assert ClosesName(s, s1, n, r) && ClosesName(s1, s2, n, r);
      assert Live(s2, r) ==> Live(s1, r);
    }
  }

  lemma CloseOnlyCloses(s: State, h: Hands, r: RefId)
    requires Inv(s, h) && Live(s, r) && r !in h.loose
    ensures OnlyCloses(s, Closing(s, r))
  {
    hide Counted, ClosedOnce, Placed;
    var s' := Closing(s, r);
    forall n, x | 0 <= n < |s.nodes|
      ensures ClosesName(s, s', n, x)
    {
      if x in s.nodes[n].childRefNames {
        assert NamedAt(s, h, n, x);
      }
    }
  }

  // ---- New path nodes ------------------------------------------------------

  /** The node of a child name, which is made if need be. */
  function WithNode(s: State, n: NodeId, name: string): (r: (State, NodeId))
    requires n < |s.nodes|
    ensures r.0.refs == s.refs && r.0.fids == s.fids && |r.0.nodes| >= |s.nodes|
    ensures name in r.0.nodes[n].childNodes && r.0.nodes[n].childNodes[name] == r.1
    ensures forall m :: 0 <= m < |s.nodes| ==> r.0.nodes[m].childRefNames == s.nodes[m].childRefNames
    ensures forall m, x :: 0 <= m < |s.nodes| && x in s.nodes[m].childNodes ==>
              x in r.0.nodes[m].childNodes && r.0.nodes[m].childNodes[x] == s.nodes[m].childNodes[x]
  {
    if name in s.nodes[n].childNodes then (s, s.nodes[n].childNodes[name]) else
    (s.(nodes := s.nodes[n := s.nodes[n].AddPathNodeFor(name, |s.nodes|)] + [EMPTY_NODE]), |s.nodes|)
  }

  ghost function WithNodeRank(s: State, n: NodeId, name: string, rank: seq<nat>): seq<nat>
    requires n < |s.nodes| == |rank|
  {
    if name in s.nodes[n].childNodes then rank else seq(|rank|, i requires 0 <= i < |rank| => rank[i] + 1) + [0]
  }

  lemma WithNodeKeeps(s: State, h: Hands, n: NodeId, name: string, rank: seq<nat>, depth: seq<nat>)
    requires Good(s, h, rank, depth) && n < |s.nodes|
    ensures |rank| == |s.nodes| && Good(WithNode(s, n, name).0, h, WithNodeRank(s, n, name, rank), depth)
    ensures WithNode(s, n, name).1 < |WithNode(s, n, name).0.nodes|
  {
    hide Uses, IsChild, Named, Placed;
    if name !in s.nodes[n].childNodes {
      var s' := WithNode(s, n, name).0;
      NodesKeepCounts(s, h, s');
      WithNodePlaces(s, h, n, name);
      assert Ranked(s'.nodes, WithNodeRank(s, n, name, rank));
    }
  }

  lemma NodesKeepCounts(s: State, h: Hands, s': State)
    requires Counted(s, h) && s' == s.(nodes := s'.nodes)
    ensures Counted(s', h)
  {
    forall x | 0 <= x < |s.refs|
      ensures s'.refs[x].count == Uses(s', h, x)
    {
      assert ChildrenOf(s', h, x) == ChildrenOf(s, h, x);
      assert FidsOf(s', x) == FidsOf(s, x);
    }
  }

  lemma WithNodePlaces(s: State, h: Hands, n: NodeId, name: string)
    requires Inv(s, h) && n < |s.nodes| && name !in s.nodes[n].childNodes
    ensures Named(WithNode(s, n, name).0, h) && Placed(WithNode(s, n, name).0, h)
  {
    hide Counted, ClosedOnce;
    var s' := WithNode(s, n, name).0;
    forall m, r | 0 <= m < |s'.nodes| && r in s'.nodes[m].childRefNames
      ensures NamedAt(s', h, m, r)
    {
      assert m < |s.nodes|;
      assert NamedAt(s, h, m, r);
    }
    forall x | 0 <= x < |s.refs| && Lasting(s', x) && x !in h.loose && x !in h.unplaced
      ensures PlacedAt(s', x)
    {
      assert PlacedAt(s, x);
    }
  }

  // ---- New references ------------------------------------------------------

  function Adding(s: State, ref: FidRef): State { s.(refs := s.refs + [ref]) }

  ghost function Adopting(h: Hands, r: RefId): Hands { h.(loose := h.loose + {r}, young := h.young + {r}) }

  lemma AddKeeps(s: State, h: Hands, ref: FidRef, rank: seq<nat>, depth: seq<nat>, d: nat)
    requires Good(s, h, rank, depth) && ref.count == 0 && ref.closed == 0 && ref.node < |s.nodes|
    requires ref.parent.Some? ==> ref.parent.value < |s.refs|
    ensures Good(Adding(s, ref), Adopting(h, |s.refs|), rank, depth + [d])
  {
    AddCounts(s, h, ref);
    AddPlaces(s, h, ref);
    hide Counted, Named, Placed;
  }

  lemma AddCounts(s: State, h: Hands, ref: FidRef)
    requires Inv(s, h) && ref.count == 0
    ensures Counted(Adding(s, ref), Adopting(h, |s.refs|))
  {
    hide Named, Placed, AllMatched;
    var s', h' := Adding(s, ref), Adopting(h, |s.refs|);
    forall x | 0 <= x < |s'.refs|
      ensures s'.refs[x].count == Uses(s', h', x)
    {
      AddChildren(s, h, ref, x);
      assert FidsOf(s', x) == FidsOf(s, x);
    }
  }

  lemma AddChildren(s: State, h: Hands, ref: FidRef, x: RefId)
    requires Inv(s, h) && x <= |s.refs|
    ensures ChildrenOf(Adding(s, ref), Adopting(h, |s.refs|), x) == ChildrenOf(s, h, x)
    ensures x == |s.refs| ==> Uses(s, h, x) == 0
  {
    var s', h' := Adding(s, ref), Adopting(h, |s.refs|);
    forall c: nat
      ensures IsChild(s', h', c, x) <==> IsChild(s, h, c, x)
    {
    }
    if x == |s.refs| {
      assert ChildrenOf(s, h, x) == {};
      assert FidsOf(s, x) == {};
    }
  }

  lemma AddPlaces(s: State, h: Hands, ref: FidRef)
    requires Inv(s, h)
    ensures Named(Adding(s, ref), Adopting(h, |s.refs|)) && Placed(Adding(s, ref), Adopting(h, |s.refs|))
  {
    hide Counted, ClosedOnce;
    var s', h' := Adding(s, ref), Adopting(h, |s.refs|);
    forall n, r | 0 <= n < |s'.nodes| && r in s'.nodes[n].childRefNames
      ensures NamedAt(s', h', n, r)
    {
      assert NamedAt(s, h, n, r);
    }
    forall x | 0 <= x < |s'.refs| && Lasting(s', x) && x !in h'.loose && x !in h'.unplaced
      ensures PlacedAt(s', x)
    {
      assert PlacedAt(s, x);
    }
  }

  // ---- Links to the parent -------------------------------------------------

  /** The handler's reference to the parent becomes the child's. */
  ghost function Given(h: Hands, r: RefId, p: RefId, unplaced: set<RefId>): Hands {
    Without(h, p).(loose := h.loose - {r}, unplaced := unplaced)
  }

  function Naming(s: State, n: NodeId, r: RefId, name: string): State
    requires n < |s.nodes| && s.nodes[n].Matched() && r !in s.nodes[n].childRefNames
  {
    s.(nodes := s.nodes[n := s.nodes[n].AddChild(r, name)])
  }

  ghost predicate Linkable(s: State, h: Hands, r: RefId, p: RefId, depth: seq<nat>) {
    && Live(s, r) && r in h.loose && s.refs[r].parent == Some(p) && p < |s.refs| && h.held[p] > 0
    && |depth| == |s.refs| && depth[p] < depth[r] && (s.refs[p].deleted ==> s.refs[r].deleted)
  }

  /** A loose reference gets its link and its name. */
  lemma LinkKeeps(s: State, h: Hands, r: RefId, p: RefId, name: string, unplaced: set<RefId>, rank: seq<nat>,
                  depth: seq<nat>)
    requires Good(s, h, rank, depth) && Linkable(s, h, r, p, depth) && h.unplaced <= unplaced <= h.unplaced + {r}
    requires Lasting(s, r) && r !in unplaced ==>
               var c := s.nodes[s.refs[p].node].childNodes; name in c && c[name] == s.refs[r].node
    ensures r !in s.nodes[s.refs[p].node].childRefNames
    ensures Good(Naming(s, s.refs[p].node, r, name), Given(h, r, p, unplaced), rank, depth)
  {
    hide Uses, PlacedAt;
    assert r in s.nodes[s.refs[p].node].childRefNames ==> NamedAt(s, h, s.refs[p].node, r);
    var s', h' := Naming(s, s.refs[p].node, r, name), Given(h, r, p, unplaced);
    LinkCounts(s, h, s', r, p, unplaced);
    LinkPlaces(s, h, r, p, name, unplaced);
  }

  lemma LinkCounts(s: State, h: Hands, s': State, r: RefId, p: RefId, unplaced: set<RefId>)
    requires Inv(s, h) && Live(s, r) && r in h.loose && s.refs[r].parent == Some(p) && h.held[p] > 0
    requires s' == s.(nodes := s'.nodes)
    ensures Counted(s', Given(h, r, p, unplaced))
  {
    hide Named, Placed, AllMatched;
    var h' := Given(h, r, p, unplaced);
    forall x | 0 <= x < |s.refs|
      ensures s'.refs[x].count == Uses(s', h', x)
    {
      assert FidsOf(s', x) == FidsOf(s, x);
      ChildrenAfter(s, h, s', h', r, x);
    }
  }

  lemma LinkPlaces(s: State, h: Hands, r: RefId, p: RefId, name: string, unplaced: set<RefId>)
    requires Inv(s, h) && Live(s, r) && r in h.loose && s.refs[r].parent == Some(p)
    requires h.unplaced <= unplaced <= h.unplaced + {r} && r !in s.nodes[s.refs[p].node].childRefNames
    requires Lasting(s, r) && r !in unplaced ==>
               var c := s.nodes[s.refs[p].node].childNodes; name in c && c[name] == s.refs[r].node
    ensures Named(Naming(s, s.refs[p].node, r, name), Given(h, r, p, unplaced))
    ensures Placed(Naming(s, s.refs[p].node, r, name), Given(h, r, p, unplaced))
  {
    hide Counted, ClosedOnce;
    var s', h' := Naming(s, s.refs[p].node, r, name), Given(h, r, p, unplaced);
    forall n, x | 0 <= n < |s'.nodes| && x in s'.nodes[n].childRefNames
      ensures NamedAt(s', h', n, x)
    {
      if x != r {
        assert NamedAt(s, h, n, x);
      }
    }
    forall x | 0 <= x < |s'.refs| && Lasting(s', x) && x !in h'.loose && x !in h'.unplaced
      ensures PlacedAt(s', x)
    {
      if x != r {
        assert PlacedAt(s, x);
      }
    }
  }

  /** A loose reference to a deleted file gets its link but no name. */
  lemma LinkDeletedKeeps(s: State, h: Hands, r: RefId, p: RefId, rank: seq<nat>, depth: seq<nat>)
    requires Good(s, h, rank, depth) && Linkable(s, h, r, p, depth) && s.refs[r].deleted
    ensures Good(s, Given(h, r, p, h.unplaced), rank, depth)
  {
    LinkCounts(s, h, s, r, p, h.unplaced);
  }

  /** A reference loses its name, and the handler gets its reference to the
      parent. */
  function Unnaming(s: State, n: NodeId, r: RefId): State
    requires n < |s.nodes| && s.nodes[n].Matched() && r in s.nodes[n].childRefNames
  {
    s.(nodes := s.nodes[n := s.nodes[n].Unname(r)])
  }

  ghost function Freed(h: Hands, r: RefId, p: RefId): Hands { Holding(h, p).(loose := h.loose + {r}) }

  lemma UnlinkKeeps(s: State, h: Hands, n: NodeId, r: RefId, rank: seq<nat>, depth: seq<nat>)
    requires Good(s, h, rank, depth) && n < |s.nodes| && r in s.nodes[n].childRefNames
    ensures NamedAt(s, h, n, r)
    ensures Good(Unnaming(s, n, r), Freed(h, r, s.refs[r].parent.value), rank, depth)
  {
    assert NamedAt(s, h, n, r);
    UnlinkCounts(s, h, n, r);
    UnlinkPlaces(s, h, n, r);
  }

  lemma UnlinkCounts(s: State, h: Hands, n: NodeId, r: RefId)
    requires Inv(s, h) && n < |s.nodes| && r in s.nodes[n].childRefNames && NamedAt(s, h, n, r)
    ensures Counted(Unnaming(s, n, r), Freed(h, r, s.refs[r].parent.value))
  {
    hide Named, Placed;
    var s', h' := Unnaming(s, n, r), Freed(h, r, s.refs[r].parent.value);
    forall x | 0 <= x < |s.refs|
      ensures s'.refs[x].count == Uses(s', h', x)
    {
      assert FidsOf(s', x) == FidsOf(s, x);
      ChildrenAfter(s, h, s', h', r, x);
    }
  }

  lemma UnlinkPlaces(s: State, h: Hands, n: NodeId, r: RefId)
    requires Inv(s, h) && n < |s.nodes| && r in s.nodes[n].childRefNames && NamedAt(s, h, n, r)
    ensures Named(Unnaming(s, n, r), Freed(h, r, s.refs[r].parent.value))
    ensures Placed(Unnaming(s, n, r), Freed(h, r, s.refs[r].parent.value))
  {
    hide Counted, ClosedOnce;
    var s', h' := Unnaming(s, n, r), Freed(h, r, s.refs[r].parent.value);
    forall m, x | 0 <= m < |s'.nodes| && x in s'.nodes[m].childRefNames
      ensures NamedAt(s', h', m, x)
    {
      assert NamedAt(s, h, m, x);
    }
    forall x | 0 <= x < |s'.refs| && Lasting(s', x) && x !in h'.loose && x !in h'.unplaced
      ensures PlacedAt(s', x)
    {
      assert PlacedAt(s, x);
    }
  }

  function Reparenting(s: State, r: RefId, p: RefId): State
    requires r < |s.refs|
  {
    s.(refs := s.refs[r := s.refs[r].(parent := Some(p))])
  }

  lemma ReparentKeeps(s: State, h: Hands, r: RefId, p: RefId, rank: seq<nat>, depth: seq<nat>)
    requires Good(s, h, rank, depth) && r in h.loose && r < |s.refs| && p < |s.refs|
    ensures Good(Reparenting(s, r, p), h, rank, depth)
  {
    var s' := Reparenting(s, r, p);
    assert Counted(s', h) by {
      forall x | 0 <= x < |s.refs|
        ensures s'.refs[x].count == Uses(s', h, x)
      {
        assert FidsOf(s', x) == FidsOf(s, x);
        ChildrenAfter(s, h, s', h, r, x);
      }
    }
    ReparentPlaces(s, h, r, p);
  }

  lemma ReparentPlaces(s: State, h: Hands, r: RefId, p: RefId)
    requires Inv(s, h) && r in h.loose && r < |s.refs| && p < |s.refs|
    ensures Named(Reparenting(s, r, p), h) && Placed(Reparenting(s, r, p), h)
  {
    hide Counted, ClosedOnce;
    var s' := Reparenting(s, r, p);
    forall m, x | 0 <= m < |s'.nodes| && x in s'.nodes[m].childRefNames
      ensures NamedAt(s', h, m, x)
    {
      assert NamedAt(s, h, m, x);
    }
    forall x | 0 <= x < |s'.refs| && Lasting(s', x) && x !in h.loose && x !in h.unplaced
      ensures PlacedAt(s', x)
    {
      assert PlacedAt(s, x);
    }
  }
}
